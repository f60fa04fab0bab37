/** Recursive directory creation (vsx::filesystem_helper::create_directory).

    The routine copies `path` character by character into a fixed buffer and,
    each time it reaches a directory separator that is neither the first
    character nor right after a ':' (as in a drive letter "C:"), creates the directory named by
    the buffer so far. After the loop it creates the whole path. The model
    returns the sequence of arguments handed to mkdir, in call order. */
module FilesystemHelper {

  /** Size of the on-stack copy buffer `dir_name`. */
  const DirNameCapacity := 4096

  /** The C string a character buffer holds: everything before the first NUL. */
  function CString(buf: seq<char>): (s: seq<char>)
    ensures |s| <= |buf|
    ensures s == buf[..|s|]
    ensures '\0' !in s
    ensures |s| < |buf| ==> buf[|s|] == '\0'
  {
    if buf == [] || buf[0] == '\0' then [] else [buf[0]] + CString(buf[1..])
  }

  /** A buffer whose first NUL is at index k holds the C string buf[..k]. */
  lemma CStringOfTerminated(buf: seq<char>, k: nat)
    requires k < |buf| && buf[k] == '\0' && '\0' !in buf[..k]
    ensures CString(buf) == buf[..k]
  {
  }

  /** create_directory calls mkdir when it reaches the separator at index p,
      unless p is the first index or the character before it is a ':'. */
  predicate MkdirAt(sep: char, path: seq<char>, p: int)
  {
    0 < p < |path| && path[p] == sep && path[p - 1] != ':'
  }

  /** The mkdir arguments produced while the loop scans path[..n]. */
  function PrefixCalls(sep: char, path: seq<char>, n: nat): seq<seq<char>>
    requires n <= |path|
  {
    if n == 0 then []
    else PrefixCalls(sep, path, n - 1) + (if MkdirAt(sep, path, n - 1) then [path[..n - 1]] else [])
  }

  /** Every mkdir argument of create_directory, in call order: one per qualifying
      separator, then the whole path. */
  function MkdirCalls(sep: char, path: seq<char>): seq<seq<char>>
  {
    PrefixCalls(sep, path, |path|) + [path]
  }

  /** The calls made while scanning path[..n] are one per qualifying
      separator below n: each is the prefix ending just before such a
      separator, and every such separator yields its prefix. */
  lemma {:induction false} PrefixCallsAtSeparators(sep: char, path: seq<char>, n: nat)
    requires n <= |path|
    ensures forall c :: c in PrefixCalls(sep, path, n) ==>
      |c| < n && MkdirAt(sep, path, |c|) && c == path[..|c|]
    ensures forall p :: 0 <= p < n && MkdirAt(sep, path, p) ==> path[..p] in PrefixCalls(sep, path, n)
  {
    if n > 0 {
      PrefixCallsAtSeparators(sep, path, n - 1);
      var prev := PrefixCalls(sep, path, n - 1);
      var calls := PrefixCalls(sep, path, n);
      assert calls == prev + (if MkdirAt(sep, path, n - 1) then [path[..n - 1]] else []);
      forall p | 0 <= p < n && MkdirAt(sep, path, p)
        ensures path[..p] in calls
      {
        if p < n - 1 {
          assert path[..p] in prev;
        } else {
          assert calls[|calls| - 1] == path[..p];
        }
      }
    }
  }

  /** The calls made while scanning path[..n] have strictly increasing lengths. */
  lemma {:induction false} PrefixCallsIncreasing(sep: char, path: seq<char>, n: nat)
    requires n <= |path|
    ensures forall i, j :: 0 <= i < j < |PrefixCalls(sep, path, n)| ==>
      |PrefixCalls(sep, path, n)[i]| < |PrefixCalls(sep, path, n)[j]|
  {
    if n > 0 {
      PrefixCallsIncreasing(sep, path, n - 1);
      PrefixCallsAtSeparators(sep, path, n - 1);
      var prev := PrefixCalls(sep, path, n - 1);
      var calls := PrefixCalls(sep, path, n);
      assert calls == prev + (if MkdirAt(sep, path, n - 1) then [path[..n - 1]] else []);
      forall i, j | 0 <= i < j < |calls| ensures |calls[i]| < |calls[j]| {
        assert calls[i] == prev[i];
        if j < |prev| {
          assert calls[j] == prev[j];
        } else {
          assert prev[i] in prev;
        }
      }
    }
  }

  /** The calls of create_directory: every argument is a prefix of the path,
      lengths strictly increase, the last call is on the whole path, and every
      earlier call is exactly the prefix before a separator that is not at
      index 0 and not preceded by ':' (and each such separator gives a call). */
  lemma MkdirCallsShape(sep: char, path: seq<char>)
    ensures |MkdirCalls(sep, path)| > 0
    ensures MkdirCalls(sep, path)[|MkdirCalls(sep, path)| - 1] == path
    ensures forall i :: 0 <= i < |MkdirCalls(sep, path)| ==>
      |MkdirCalls(sep, path)[i]| <= |path| &&
      MkdirCalls(sep, path)[i] == path[..|MkdirCalls(sep, path)[i]|]
    ensures forall i, j :: 0 <= i < j < |MkdirCalls(sep, path)| ==>
      |MkdirCalls(sep, path)[i]| < |MkdirCalls(sep, path)[j]|
    ensures forall i :: 0 <= i < |MkdirCalls(sep, path)| - 1 ==>
      MkdirAt(sep, path, |MkdirCalls(sep, path)[i]|)
    ensures forall p :: MkdirAt(sep, path, p) ==> path[..p] in MkdirCalls(sep, path)
  {
    PrefixCallsAtSeparators(sep, path, |path|);
    PrefixCallsIncreasing(sep, path, |path|);
    var pre := PrefixCalls(sep, path, |path|);
    var calls := MkdirCalls(sep, path);
    assert calls == pre + [path];
    forall i | 0 <= i < |calls| ensures |calls[i]| <= |path| && calls[i] == path[..|calls[i]|] {
      if i < |pre| { assert calls[i] == pre[i]; }
    }
    forall i, j | 0 <= i < j < |calls| ensures |calls[i]| < |calls[j]| {
      if j < |pre| { assert calls[i] == pre[i] && calls[j] == pre[j]; }
      else { assert calls[i] == pre[i]; }
    }
    forall p | MkdirAt(sep, path, p) ensures path[..p] in calls {
      assert path[..p] in pre;
    }
  }

  /** No mkdir argument except possibly the final whole path is empty or ends
      in ':', so neither a leading separator nor a separator right after any
      ':' (a drive letter "C:", for one) creates anything. */
  lemma MkdirSkipsRootAndDrive(sep: char, path: seq<char>)
    ensures forall i :: 0 <= i < |MkdirCalls(sep, path)| - 1 ==>
      |MkdirCalls(sep, path)[i]| > 0 &&
      MkdirCalls(sep, path)[i][|MkdirCalls(sep, path)[i]| - 1] != ':'
  {
    MkdirCallsShape(sep, path);
    var calls := MkdirCalls(sep, path);
    forall i | 0 <= i < |calls| - 1
      ensures |calls[i]| > 0 && calls[i][|calls[i]| - 1] != ':'
    {
      var c := calls[i];
      assert MkdirAt(sep, path, |c|);
      assert c == path[..|c|];
      assert c[|c| - 1] == path[|c| - 1];
    }
  }

  /** create_directory, with `sep` the platform's DIRECTORY_SEPARATOR_CHAR.
      The copy into the 4096-character buffer has no bound check and an empty
      path reaches mkdir with an unwritten buffer, so the model asks for a
      non-empty path that fits the buffer with its terminator. A C string
      holds no NUL. Returns the argument of every mkdir call, in order. */
  method CreateDirectory(sep: char, path: seq<char>) returns (mkdirs: seq<seq<char>>)
    requires 0 < |path| < DirNameCapacity
    requires '\0' !in path
    ensures mkdirs == MkdirCalls(sep, path)
  {
    var dirName := new char[DirNameCapacity];
    var p := 0;  // read position in path
    var q := 0;  // write position in dirName
    mkdirs := [];
    while p < |path|
      invariant 0 <= p <= |path| && q == p
      invariant dirName[..p] == path[..p]
      invariant 0 < p ==> dirName[p] == '\0'
      invariant mkdirs == PrefixCalls(sep, path, p)
    {
      if path[p] == sep {
        if p != 0 && path[p - 1] != ':' {
          assert '\0' !in dirName[..p] by { assert dirName[..p] == path[..p]; }
          CStringOfTerminated(dirName[..], p);
          assert dirName[..][..p] == path[..p];
          mkdirs := mkdirs + [CString(dirName[..])];
        }
      }
      dirName[q] := path[p];
      assert dirName[..p + 1] == path[..p + 1];
      q, p := q + 1, p + 1;
      dirName[q] := '\0';
      assert dirName[..p] == path[..p];
    }
    assert path[..p] == path;
    assert '\0' !in dirName[..p];
    CStringOfTerminated(dirName[..], p);
    assert dirName[..][..p] == path;
    mkdirs := mkdirs + [CString(dirName[..])];
  }
}
