/** The JPEG-with-alpha loader module (module_texture_load_jpeg_alpha).

    The module decodes a colour JPEG, and optionally a second JPEG whose first
    channel becomes the alpha channel, on a background worker. The integer
    thread_state is the only handoff between the frame thread and the worker:
    0 idle, 1 running, 2 done, 3 consumed, -1 failed. run() starts a worker when
    the filename input changes, and publishes a finished bitmap with a bumped
    timestamp; output() uploads the bitmap to the texture at most once per
    timestamp.

    The worker is modelled as one atomic step, Worker, that the environment may
    take while thread_state is 1; pthread_join is that step completing inside
    the joining call. The decoder's results are parameters. */
module JpegAlphaLoader {

  /** Byte k of a 32-bit word, counting from the least significant byte. */
  function ByteOf(w: bv32, k: nat): bv8
    requires k < 4
  {
    var shifted := if k == 0 then w else if k == 1 then w >> 8 else if k == 2 then w >> 16 else w >> 24;
    (shifted & 0xFF) as bv8
  }

  /** The word the packing loops write for one pixel: alpha in the top byte,
      then the pixel's third, second and first colour byte. The source shifts
      in signed int; the stored word is the unsigned 32-bit pattern. */
  function PackPixel(r: bv8, g: bv8, b: bv8, a: bv8): (w: bv32)
    ensures ByteOf(w, 0) == r && ByteOf(w, 1) == g && ByteOf(w, 2) == b && ByteOf(w, 3) == a
  {
    ((a as bv32) << 24) | ((b as bv32) << 16) | ((g as bv32) << 8) | (r as bv32)
  }

  /** Packing is onto: every word is the packing of its own four bytes. */
  lemma PackPixelOfBytes(w: bv32)
    ensures PackPixel(ByteOf(w, 0), ByteOf(w, 1), ByteOf(w, 2), ByteOf(w, 3)) == w
  {
  }

  /** The word the loop without an alpha file writes: 0xFF000000 or-ed with the
      colour bytes, which is the packing with a fully opaque alpha. */
  function OpaquePixel(r: bv8, g: bv8, b: bv8): (w: bv32)
    ensures w == PackPixel(r, g, b, 0xFF)
    ensures ByteOf(w, 3) == 0xFF
  {
    0xFF00_0000 | ((b as bv32) << 16) | ((g as bv32) << 8) | (r as bv32)
  }

  /** The picture with alpha: word i takes its colour from rgb[3i..3i+3) and
      its alpha from alpha[3i], the first channel of the alpha picture. */
  function AlphaPixels(rgb: seq<bv8>, alpha: seq<bv8>, count: nat): seq<bv32>
    requires 3 * count <= |rgb| && 3 * count <= |alpha|
  {
    seq(count, i requires 0 <= i < count => PackPixel(rgb[3 * i], rgb[3 * i + 1], rgb[3 * i + 2], alpha[3 * i]))
  }

  /** The picture without alpha: every word is opaque. */
  function OpaquePixels(rgb: seq<bv8>, count: nat): seq<bv32>
    requires 3 * count <= |rgb|
  {
    seq(count, i requires 0 <= i < count => PackPixel(rgb[3 * i], rgb[3 * i + 1], rgb[3 * i + 2], 0xFF))
  }

  /** Unpacking a word of the alpha picture gives back the three colour bytes
      and the alpha byte it was made of. */
  lemma AlphaPixelsRecoverBytes(rgb: seq<bv8>, alpha: seq<bv8>, count: nat, i: nat)
    requires 3 * count <= |rgb| && 3 * count <= |alpha| && i < count
    ensures |AlphaPixels(rgb, alpha, count)| == count
    ensures ByteOf(AlphaPixels(rgb, alpha, count)[i], 0) == rgb[3 * i]
    ensures ByteOf(AlphaPixels(rgb, alpha, count)[i], 1) == rgb[3 * i + 1]
    ensures ByteOf(AlphaPixels(rgb, alpha, count)[i], 2) == rgb[3 * i + 2]
    ensures ByteOf(AlphaPixels(rgb, alpha, count)[i], 3) == alpha[3 * i]
  {
  }

  /** Every word of the opaque picture has top byte 0xFF and the colour bytes
      in the same order as the alpha picture. */
  lemma OpaquePixelsRecoverBytes(rgb: seq<bv8>, count: nat, i: nat)
    requires 3 * count <= |rgb| && i < count
    ensures |OpaquePixels(rgb, count)| == count
    ensures ByteOf(OpaquePixels(rgb, count)[i], 0) == rgb[3 * i]
    ensures ByteOf(OpaquePixels(rgb, count)[i], 1) == rgb[3 * i + 1]
    ensures ByteOf(OpaquePixels(rgb, count)[i], 2) == rgb[3 * i + 2]
    ensures ByteOf(OpaquePixels(rgb, count)[i], 3) == 0xFF
  {
  }

  /** The packing loop of the alpha path: writes the first count words of data
      and leaves the rest of the buffer alone. */
  method PackWithAlpha(data: array<bv32>, rgb: seq<bv8>, alpha: seq<bv8>, count: nat)
    requires 3 * count <= |rgb| && 3 * count <= |alpha| && count <= data.Length
    modifies data
    ensures data[..count] == AlphaPixels(rgb, alpha, count)
    ensures data[count..] == old(data[count..])
  {
    for i := 0 to count
      invariant forall k :: 0 <= k < i ==> data[k] == PackPixel(rgb[3 * k], rgb[3 * k + 1], rgb[3 * k + 2], alpha[3 * k])
      invariant data[count..] == old(data[count..])
    {
      data[i] := PackPixel(rgb[i * 3], rgb[i * 3 + 1], rgb[i * 3 + 2], alpha[i * 3]);
    }
    assert data[..count] == AlphaPixels(rgb, alpha, count);
  }

  /** The packing loop of the path without an alpha file. */
  method PackOpaque(data: array<bv32>, rgb: seq<bv8>, count: nat)
    requires 3 * count <= |rgb| && count <= data.Length
    modifies data
    ensures data[..count] == OpaquePixels(rgb, count)
    ensures data[count..] == old(data[count..])
  {
    for i := 0 to count
      invariant forall k :: 0 <= k < i ==> data[k] == PackPixel(rgb[3 * k], rgb[3 * k + 1], rgb[3 * k + 2], 0xFF)
      invariant data[count..] == old(data[count..])
    {
      data[i] := OpaquePixel(rgb[i * 3], rgb[i * 3 + 1], rgb[i * 3 + 2]);
    }
    assert data[..count] == OpaquePixels(rgb, count);
  }

  /** What the JPEG decoder returns for one file: the resolution and the
      decoded buffer of three bytes per pixel, or the error text it reports. */
  datatype JpegLoad = Decoded(resX: nat, resY: nat, buf: seq<bv8>) | LoadFailed(ret: string)

  /** The decoder's buffers hold three bytes for each pixel of the colour
      picture; the alpha buffer is read with the colour picture's size. */
  predicate WorkerInputsOk(rgb: JpegLoad, alpha: JpegLoad, withAlpha: bool)
  {
    rgb.Decoded? ==>
      3 * (rgb.resX * rgb.resY) <= |rgb.buf| &&
      (withAlpha && alpha.Decoded? ==> 3 * (rgb.resX * rgb.resY) <= |alpha.buf|)
  }

  /** The worker succeeds when the colour file decodes and, if an alpha file
      is named, the alpha file decodes too. */
  predicate WorkerSucceeds(rgb: JpegLoad, alpha: JpegLoad, withAlpha: bool)
  {
    rgb.Decoded? && (withAlpha ==> alpha.Decoded?)
  }

  /** The pixels a successful worker leaves at the front of the bitmap. */
  function WorkerPixels(rgb: JpegLoad, alpha: JpegLoad, withAlpha: bool): seq<bv32>
    requires WorkerInputsOk(rgb, alpha, withAlpha) && WorkerSucceeds(rgb, alpha, withAlpha)
  {
    if withAlpha then AlphaPixels(rgb.buf, alpha.buf, rgb.resX * rgb.resY)
    else OpaquePixels(rgb.buf, rgb.resX * rgb.resY)
  }

  /** The message a failing worker sets; both failure paths name the colour file. */
  function WorkerErrorMessage(ret: string, filename: string): string
  {
    "module||" + ret + "\n" + filename
  }

  /** The thread_state a finished worker leaves. */
  function WorkerEndState(succeeded: bool): int
  {
    if succeeded then 2 else -1
  }

  const OkMessage := "module||ok"
  const NotJpgMessage := "module||ERROR! This is not a JPG image file!"

  /** OpenGL's GL_RGBA format constant. */
  const GlRgba := 0x1908

  /** The module's vsx_bitmap: size, pixel buffer, validity and timestamp. */
  datatype Bitmap = Bitmap(sizeX: nat, sizeY: nat, data: array<bv32>, valid: bool, timestamp: int, bpp: int, bformat: int)

  /** After a successful worker, bitmap b holds the decoded picture: its size
      is the colour picture's, its buffer holds twice that many words, and the
      first of them are the packed pixels. */
  ghost predicate HoldsDecoded(b: Bitmap, rgb: JpegLoad, alpha: JpegLoad, withAlpha: bool)
    requires WorkerInputsOk(rgb, alpha, withAlpha) && WorkerSucceeds(rgb, alpha, withAlpha)
    reads b.data
  {
    && b.sizeX == rgb.resX && b.sizeY == rgb.resY
    && b.data.Length == 2 * (rgb.resX * rgb.resY)
    && b.data[..rgb.resX * rgb.resY] == WorkerPixels(rgb, alpha, withAlpha)
  }

  /** What happens to worker threads: started on a file pair, joined, finished. */
  datatype WorkerEvent = Started(filename: string, alphaFilename: string) | Joined | Finished(succeeded: bool)

  /** Change in the number of live workers that one event makes. */
  function LiveDelta(e: WorkerEvent): int
  {
    match e
    case Started(_, _) => 1
    case Joined => 0
    case Finished(_) => -1
  }

  /** Number of workers started and not yet finished. */
  function LiveWorkers(log: seq<WorkerEvent>): int
  {
    if log == [] then 0 else LiveWorkers(log[..|log| - 1]) + LiveDelta(log[|log| - 1])
  }

  /** Logging one more event changes the live count by that event's delta. */
  lemma LiveWorkersAppend(log: seq<WorkerEvent>, e: WorkerEvent)
    ensures LiveWorkers(log + [e]) == LiveWorkers(log) + LiveDelta(e)
  {
    assert (log + [e])[..|log + [e]| - 1] == log;
  }

  /** The events a joining call records: if a worker runs, it is joined and its
      pending step completes. */
  function JoinEvents(state: int, succeeded: bool): seq<WorkerEvent>
  {
    if state == 1 then [Joined, Finished(succeeded)] else []
  }

  /** The output parameters output() is asked to produce. */
  datatype OutParam = TextureOut | BitmapOut

  /** Strictly increasing integers. */
  predicate Increasing(s: seq<int>)
  {
    forall i, j :: 0 <= i < j < |s| ==> s[i] < s[j]
  }

  class JpegAlphaModule {
    // inputs
    var filenameIn: string
    var filenameAlphaIn: string
    // module state
    var currentFilename: string
    var currentAlphaFilename: string
    var message: string
    var loadingDone: bool
    var threadState: int
    var bitm: Bitmap
    /** Number of times bitmap_out has been set to the bitmap. */
    var bitmapOutSets: nat
    // texture output
    var textureTimestamp: int
    var textureValid: bool
    var textureOutSet: bool
    /** Timestamps of the bitmaps uploaded to the texture, in upload order. */
    var uploads: seq<int>
    /** Workers started, joined and finished, in order. */
    var workerLog: seq<WorkerEvent>
    /** on_delete released the bitmap's pixel buffer. */
    var dataReleased: bool

    /** The module's invariant: thread_state takes one of its five values, a
        worker is live exactly when thread_state is 1 (so at most one is), the
        pixel buffer is twice the picture's size, a consumed result has been
        made valid, and uploads happen at most once per bitmap timestamp. */
    ghost predicate Valid()
      reads this
    {
      && threadState in {-1, 0, 1, 2, 3}
      && LiveWorkers(workerLog) == (if threadState == 1 then 1 else 0)
      && bitm.data.Length == 2 * (bitm.sizeX * bitm.sizeY)
      && (threadState == 3 ==> bitm.valid)
      && Increasing(uploads)
      && (uploads != [] ==> uploads[|uploads| - 1] == textureTimestamp && textureTimestamp <= bitm.timestamp)
    }

    /** output() on the texture would upload now. */
    predicate UploadPending()
      reads this
    {
      textureTimestamp != bitm.timestamp && bitm.valid
    }

    twostate predicate KeepsFilenames()
      reads this
    {
      && filenameIn == old(filenameIn) && filenameAlphaIn == old(filenameAlphaIn)
      && currentFilename == old(currentFilename) && currentAlphaFilename == old(currentAlphaFilename)
    }

    twostate predicate KeepsTexture()
      reads this
    {
      && textureTimestamp == old(textureTimestamp) && textureValid == old(textureValid)
      && textureOutSet == old(textureOutSet) && uploads == old(uploads)
      && dataReleased == old(dataReleased)
    }

    /** What joining does to the bitmap. If a worker was running and
        succeeded, the bitmap holds the decoded picture in a fresh buffer;
        otherwise it is unchanged. Either way its validity, timestamp, bpp
        and format stay as they were. */
    twostate predicate JoinedBitmap(rgb: JpegLoad, alpha: JpegLoad, withAlpha: bool, wasRunning: bool)
      requires wasRunning ==> WorkerInputsOk(rgb, alpha, withAlpha)
      reads this, bitm.data
    {
      && bitm.valid == old(bitm.valid) && bitm.timestamp == old(bitm.timestamp)
      && bitm.bpp == old(bitm.bpp) && bitm.bformat == old(bitm.bformat)
      && (wasRunning && WorkerSucceeds(rgb, alpha, withAlpha) ==>
            fresh(bitm.data) && HoldsDecoded(bitm, rgb, alpha, withAlpha))
      && (!wasRunning || !WorkerSucceeds(rgb, alpha, withAlpha) ==> bitm == old(bitm))
    }

    /** What joining does to the message. A worker that was running and
        failed leaves the decoder's text and the colour filename; otherwise
        the message is unchanged. */
    twostate predicate JoinedMessage(rgb: JpegLoad, alpha: JpegLoad, withAlpha: bool, filename: string, wasRunning: bool)
      reads this
    {
      && (!wasRunning || WorkerSucceeds(rgb, alpha, withAlpha) ==> message == old(message))
      && (wasRunning && rgb.LoadFailed? ==> message == WorkerErrorMessage(rgb.ret, filename))
      && (wasRunning && rgb.Decoded? && !WorkerSucceeds(rgb, alpha, withAlpha) ==>
            message == WorkerErrorMessage(alpha.ret, filename))
    }

    /** declare_params. The vsx_bitmap's own initial timestamp is given; its
        bpp and format start at 0. */
    constructor DeclareParams(bitmapTimestamp: int)
      ensures Valid()
      ensures threadState == 0 && !bitm.valid && textureTimestamp == -1 && !loadingDone
      ensures filenameIn == "" && filenameAlphaIn == "" && currentFilename == "" && currentAlphaFilename == ""
      ensures bitm.sizeX == 0 && bitm.sizeY == 0 && bitm.timestamp == bitmapTimestamp
      ensures bitmapOutSets == 1 && uploads == [] && workerLog == [] && !UploadPending()
      ensures !textureValid && !textureOutSet && !dataReleased
    {
      textureTimestamp := -1;
      loadingDone := false;
      filenameIn := "";
      filenameAlphaIn := "";
      currentFilename := "";
      currentAlphaFilename := "";
      message := "";
      var empty := new bv32[0];
      bitm := Bitmap(0, 0, empty, false, bitmapTimestamp, 0, 0);
      bitmapOutSets := 1;
      threadState := 0;
      textureValid := false;
      textureOutSet := false;
      uploads := [];
      workerLog := [];
      dataReleased := false;
    }

    /** The worker thread, jpeg_worker_v, as one step taken while thread_state
        is 1. rgb and alpha are what the decoder returns for current_filename
        and current_alpha_filename (alpha is not asked for when no alpha file
        is named). */
    method Worker(rgb: JpegLoad, alpha: JpegLoad)
      requires Valid() && threadState == 1
      requires WorkerInputsOk(rgb, alpha, currentAlphaFilename != "")
      modifies this`bitm, this`message, this`threadState, this`workerLog
      ensures Valid() && KeepsFilenames() && KeepsTexture()
      ensures var ok := WorkerSucceeds(rgb, alpha, currentAlphaFilename != "");
        && threadState == WorkerEndState(ok)
        && workerLog == old(workerLog) + [Finished(ok)]
        && bitm.valid == old(bitm.valid) && bitm.timestamp == old(bitm.timestamp)
        && bitm.bpp == old(bitm.bpp) && bitm.bformat == old(bitm.bformat)
        && (ok ==> fresh(bitm.data) && HoldsDecoded(bitm, rgb, alpha, currentAlphaFilename != "") && message == old(message))
        && (!ok ==> bitm == old(bitm))
        && (rgb.LoadFailed? ==> message == WorkerErrorMessage(rgb.ret, currentFilename))
        && (rgb.Decoded? && !ok ==> message == WorkerErrorMessage(alpha.ret, currentFilename))
      ensures loadingDone == old(loadingDone) && bitmapOutSets == old(bitmapOutSets)
    {
      LiveWorkersAppend(workerLog, Finished(WorkerSucceeds(rgb, alpha, currentAlphaFilename != "")));
      if rgb.LoadFailed? {
        message := WorkerErrorMessage(rgb.ret, currentFilename);
        threadState := -1;
        workerLog := workerLog + [Finished(false)];
        return;
      }
      if currentAlphaFilename != "" {
        if alpha.LoadFailed? {
          message := WorkerErrorMessage(alpha.ret, currentFilename);
          threadState := -1;
          workerLog := workerLog + [Finished(false)];
          return;
        }
        var count := rgb.resX * rgb.resY;
        var data := new bv32[count * 2];
        PackWithAlpha(data, rgb.buf, alpha.buf, count);
        bitm := bitm.(sizeX := rgb.resX, sizeY := rgb.resY, data := data);
        threadState := 2;
        workerLog := workerLog + [Finished(true)];
        return;
      }
      var count := rgb.resX * rgb.resY;
      var data := new bv32[count * 2];
      PackOpaque(data, rgb.buf, count);
      bitm := bitm.(sizeX := rgb.resX, sizeY := rgb.resY, data := data);
      threadState := 2;
      workerLog := workerLog + [Finished(true)];
    }

    /** pthread_join on a running worker: its pending step completes now. */
    method JoinIfRunning(rgb: JpegLoad, alpha: JpegLoad)
      requires Valid()
      requires threadState == 1 ==> WorkerInputsOk(rgb, alpha, currentAlphaFilename != "")
      modifies this`bitm, this`message, this`threadState, this`workerLog
      ensures Valid() && KeepsFilenames() && KeepsTexture()
      ensures threadState != 1
      ensures var ok := WorkerSucceeds(rgb, alpha, currentAlphaFilename != "");
        && workerLog == old(workerLog) + JoinEvents(old(threadState), ok)
        && threadState == (if old(threadState) == 1 then WorkerEndState(ok) else old(threadState))
      ensures JoinedBitmap(rgb, alpha, currentAlphaFilename != "", old(threadState) == 1)
      ensures JoinedMessage(rgb, alpha, currentAlphaFilename != "", currentFilename, old(threadState) == 1)
      ensures loadingDone == old(loadingDone) && bitmapOutSets == old(bitmapOutSets)
    {
      if threadState == 1 {
        LiveWorkersAppend(workerLog, Joined);
        workerLog := workerLog + [Joined];
        Worker(rgb, alpha);
      }
    }

    /** A rejected filename: the input reverts to current_filename and the
        error message is set. */
    method RejectFilename()
      requires Valid()
      modifies this`filenameIn, this`message
      ensures Valid()
      ensures filenameIn == old(currentFilename) && message == NotJpgMessage
    {
      filenameIn := currentFilename;
      message := NotJpgMessage;
    }

    /** An accepted filename: both names are cached and one worker starts. */
    method StartWorker()
      requires Valid() && threadState != 1
      modifies this`message, this`currentFilename, this`currentAlphaFilename, this`threadState, this`workerLog
      ensures Valid()
      ensures message == OkMessage && threadState == 1
      ensures currentFilename == filenameIn && currentAlphaFilename == filenameAlphaIn
      ensures workerLog == old(workerLog) + [Started(filenameIn, filenameAlphaIn)]
    {
      var started := Started(filenameIn, filenameAlphaIn);
      LiveWorkersAppend(workerLog, started);
      workerLog := workerLog + [started];
      threadState := 1;
      message := OkMessage;
      currentFilename := filenameIn;
      currentAlphaFilename := filenameAlphaIn;
    }

    /** A finished result is published: the bitmap becomes valid with the next
        timestamp and goes out on bitmap_out, and the result is consumed. */
    method Publish()
      requires Valid() && threadState == 2
      modifies this`bitm, this`threadState, this`loadingDone, this`bitmapOutSets
      ensures Valid()
      ensures threadState == 3 && loadingDone && bitmapOutSets == old(bitmapOutSets) + 1
      ensures bitm == old(bitm).(valid := true, timestamp := old(bitm.timestamp) + 1, bpp := 4, bformat := GlRgba)
    {
      bitm := bitm.(bpp := 4, bformat := GlRgba, valid := true, timestamp := bitm.timestamp + 1);
      threadState := 3;
      loadingDone := true;
      bitmapOutSets := bitmapOutSets + 1;
    }

    /** The suffix check of run() once no worker runs: a rejected name is
        reverted, an accepted one starts a worker. */
    method AcceptOrReject(isJpg: bool)
      requires Valid() && threadState != 1
      modifies this`message, this`filenameIn, this`currentFilename, this`currentAlphaFilename, this`threadState, this`workerLog
      ensures Valid() && filenameAlphaIn == old(filenameAlphaIn)
      ensures !isJpg ==>
        && filenameIn == old(currentFilename) && message == NotJpgMessage
        && currentFilename == old(currentFilename) && currentAlphaFilename == old(currentAlphaFilename)
        && threadState == old(threadState) && workerLog == old(workerLog)
      ensures isJpg ==>
        && filenameIn == old(filenameIn) && message == OkMessage && threadState == 1
        && currentFilename == old(filenameIn) && currentAlphaFilename == old(filenameAlphaIn)
        && workerLog == old(workerLog) + [Started(old(filenameIn), old(filenameAlphaIn))]
    {
      if !isJpg {
        RejectFilename();
      } else {
        StartWorker();
      }
    }

    /** The branch of run() taken when filename_in differs from
        current_filename. isJpg is verify_filesuffix's answer for filename_in. */
    method FollowFilename(rgb: JpegLoad, alpha: JpegLoad, isJpg: bool)
      requires Valid() && currentFilename != filenameIn
      requires threadState == 1 ==> WorkerInputsOk(rgb, alpha, currentAlphaFilename != "")
      modifies this`bitm, this`message, this`threadState, this`workerLog, this`filenameIn, this`currentFilename, this`currentAlphaFilename
      ensures Valid() && KeepsTexture() && filenameAlphaIn == old(filenameAlphaIn)
      // A running worker is joined first ...
      ensures loadingDone == old(loadingDone) && bitmapOutSets == old(bitmapOutSets)
      ensures JoinedBitmap(rgb, alpha, old(currentAlphaFilename) != "", old(threadState) == 1)
      // ... then a name without the jpg suffix is rejected: the input
      // reverts and no worker starts, ...
      ensures !isJpg ==>
        var ok := WorkerSucceeds(rgb, alpha, old(currentAlphaFilename) != "");
        && filenameIn == old(currentFilename)
        && currentFilename == old(currentFilename) && currentAlphaFilename == old(currentAlphaFilename)
        && message == NotJpgMessage
        && workerLog == old(workerLog) + JoinEvents(old(threadState), ok)
        && threadState == (if old(threadState) == 1 then WorkerEndState(ok) else old(threadState))
      // ... and any other name is cached with the alpha name and exactly one
      // worker starts.
      ensures isJpg ==>
        var ok := WorkerSucceeds(rgb, alpha, old(currentAlphaFilename) != "");
        && filenameIn == old(filenameIn)
        && currentFilename == old(filenameIn) && currentAlphaFilename == old(filenameAlphaIn)
        && message == OkMessage && threadState == 1
        && workerLog == old(workerLog) + JoinEvents(old(threadState), ok) + [Started(old(filenameIn), old(filenameAlphaIn))]
    {
      if threadState == -1 {
        message := OkMessage;
      }
      JoinIfRunning(rgb, alpha);
      AcceptOrReject(isJpg);
    }

    /** run(). rgb and alpha are the decoder's results for the worker that a
        changed filename joins, if one is running. verifySuffix stands for
        verify_filesuffix; it reads only filename_in, which the steps before
        it in run() leave alone, so it is asked first. */
    method Run(rgb: JpegLoad, alpha: JpegLoad, verifySuffix: (string, string) -> bool)
      requires Valid()
      requires threadState == 1 ==> WorkerInputsOk(rgb, alpha, currentAlphaFilename != "")
      modifies this
      ensures Valid() && KeepsTexture() && filenameAlphaIn == old(filenameAlphaIn)
      // The filename is unchanged: only a finished result is published.
      ensures old(currentFilename) == old(filenameIn) ==>
        && KeepsFilenames() && workerLog == old(workerLog) && message == old(message)
        && if old(threadState) == 2 then
             && threadState == 3 && loadingDone
             && bitm == old(bitm).(valid := true, timestamp := old(bitm.timestamp) + 1, bpp := 4, bformat := GlRgba)
             && bitmapOutSets == old(bitmapOutSets) + 1
           else
             && threadState == old(threadState) && loadingDone == old(loadingDone)
             && bitm == old(bitm) && bitmapOutSets == old(bitmapOutSets)
      // The filename changed: a running worker is joined, nothing is
      // published, and the name is rejected or a worker starts on it.
      ensures old(currentFilename) != old(filenameIn) ==>
        && loadingDone == old(loadingDone) && bitmapOutSets == old(bitmapOutSets)
        && JoinedBitmap(rgb, alpha, old(currentAlphaFilename) != "", old(threadState) == 1)
      ensures old(currentFilename) != old(filenameIn) && !verifySuffix(old(filenameIn), "jpg") ==>
        var ok := WorkerSucceeds(rgb, alpha, old(currentAlphaFilename) != "");
        && filenameIn == old(currentFilename)
        && currentFilename == old(currentFilename) && currentAlphaFilename == old(currentAlphaFilename)
        && message == NotJpgMessage
        && workerLog == old(workerLog) + JoinEvents(old(threadState), ok)
        && threadState == (if old(threadState) == 1 then WorkerEndState(ok) else old(threadState))
      ensures old(currentFilename) != old(filenameIn) && verifySuffix(old(filenameIn), "jpg") ==>
        var ok := WorkerSucceeds(rgb, alpha, old(currentAlphaFilename) != "");
        && filenameIn == old(filenameIn)
        && currentFilename == old(filenameIn) && currentAlphaFilename == old(filenameAlphaIn)
        && message == OkMessage && threadState == 1
        && workerLog == old(workerLog) + JoinEvents(old(threadState), ok) + [Started(old(filenameIn), old(filenameAlphaIn))]
    {
      var isJpg := verifySuffix(filenameIn, "jpg");
      if currentFilename != filenameIn {
        FollowFilename(rgb, alpha, isJpg);
        if !isJpg {
          return;
        }
      }
      if threadState == 2 {
        Publish();
      }
    }

    /** output(param): the texture is uploaded only when the bitmap is valid
        and its timestamp differs from the one last uploaded. */
    method Output(param: OutParam)
      requires Valid()
      modifies this
      ensures Valid() && KeepsFilenames()
      ensures bitm == old(bitm) && threadState == old(threadState) && message == old(message)
      ensures loadingDone == old(loadingDone) && bitmapOutSets == old(bitmapOutSets)
      ensures workerLog == old(workerLog) && dataReleased == old(dataReleased)
      ensures if param == TextureOut && old(UploadPending()) then
          && uploads == old(uploads) + [bitm.timestamp] && textureTimestamp == bitm.timestamp
          && textureValid && textureOutSet
        else
          && uploads == old(uploads) && textureTimestamp == old(textureTimestamp)
          && textureValid == old(textureValid) && textureOutSet == old(textureOutSet)
      ensures param == TextureOut ==> !UploadPending()
    {
      if param == TextureOut {
        if textureTimestamp != bitm.timestamp && bitm.valid {
          uploads := uploads + [bitm.timestamp];
          textureValid := true;
          textureOutSet := true;
          textureTimestamp := bitm.timestamp;
        }
      }
    }

    /** on_delete(): joins a running worker, then releases a valid bitmap's
        buffer. */
    method OnDelete(rgb: JpegLoad, alpha: JpegLoad)
      requires Valid()
      requires threadState == 1 ==> WorkerInputsOk(rgb, alpha, currentAlphaFilename != "")
      modifies this`bitm, this`message, this`threadState, this`workerLog, this`dataReleased
      ensures Valid() && KeepsFilenames()
      ensures threadState != 1
      ensures var ok := WorkerSucceeds(rgb, alpha, currentAlphaFilename != "");
        && workerLog == old(workerLog) + JoinEvents(old(threadState), ok)
        && threadState == (if old(threadState) == 1 then WorkerEndState(ok) else old(threadState))
      ensures JoinedBitmap(rgb, alpha, currentAlphaFilename != "", old(threadState) == 1)
      ensures JoinedMessage(rgb, alpha, currentAlphaFilename != "", currentFilename, old(threadState) == 1)
      ensures dataReleased == (old(dataReleased) || bitm.valid)
    {
      JoinIfRunning(rgb, alpha);
      if bitm.valid {
        dataReleased := true;
      }
    }
  }

  /** A whole cycle: a new file name starts one worker, the worker succeeds,
      the next run publishes, and eleven frames of run() and output() upload
      the texture exactly once. */
  method UploadOnceScenario(verifySuffix: (string, string) -> bool, rgb: JpegLoad) returns (uploadCount: nat)
    requires verifySuffix("img.jpg", "jpg")
    requires rgb.Decoded? && 3 * (rgb.resX * rgb.resY) <= |rgb.buf|
    ensures uploadCount == 1
  {
    var m := new JpegAlphaModule.DeclareParams(0);
    m.filenameIn := "img.jpg";
    m.Run(rgb, rgb, verifySuffix);
    assert m.threadState == 1 && m.currentAlphaFilename == "";
    m.Worker(rgb, rgb);
    m.Run(rgb, rgb, verifySuffix);
    assert m.threadState == 3 && m.bitm.valid;
    var frame := 0;
    while frame < 11
      invariant m.Valid() && m.threadState == 3 && m.bitm.valid
      invariant m.currentFilename == m.filenameIn
      invariant frame > 0 ==> |m.uploads| == 1 && !m.UploadPending()
      invariant frame == 0 ==> m.uploads == [] && m.UploadPending()
    {
      m.Run(rgb, rgb, verifySuffix);
      m.Output(TextureOut);
      frame := frame + 1;
    }
    uploadCount := |m.uploads|;
  }
}
