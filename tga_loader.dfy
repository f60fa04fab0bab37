/** The TGA texture loader module (module_texture_load_tga).

    Each run() decides from five inputs whether the texture must be loaded
    again: the filename, a one-shot reload flag, and three integer settings
    (vertical flip, mipmaps, min/mag filter) compared against cached copies.
    On a reload it refreshes the caches, clears the reload flag, rejects a
    name without the tga suffix by reverting the filename input, and
    otherwise destroys the old texture (unless the reload was forced) and asks
    the texture loader for a new one, with hint bit masks built from the
    settings.

    The texture loader is outside the model: its load and destroy calls are
    recorded as events, and the handle that load returns is a parameter. */
module TgaLoader {

  /** A texture handle the loader hands out. */
  type TextureHandle = nat

  datatype Option<T> = None | Some(value: T)

  /** The calls made to vsx_texture_loader, in order. */
  datatype LoaderEvent =
    | Destroy(handle: TextureHandle)
    | Load(filename: string, bitmapLoaderHint: nat, hint: nat, reload: bool)

  const OkMessage := "module||ok"
  const NotTgaMessage := "module||ERROR! This is not a TGA image file!"

  const Modulus64 := 0x1_0000_0000_0000_0000

  /** The values of a uint64_t. */
  type U64 = x: int | 0 <= x < Modulus64

  /** C++'s conversion of an int to uint64_t: the value modulo 2^64. */
  function ToU64(x: int): (w: U64)
    ensures 0 <= x < Modulus64 ==> w == x
  {
    x % Modulus64
  }

  /** A hint mask multiplied by a setting in uint64_t arithmetic, where the
      product wraps modulo 2^64: an "off" setting gives no bits and an "on"
      setting exactly the mask. */
  function ScaledHint(mask: U64, setting: int): (h: U64)
    ensures setting == 0 ==> h == 0
    ensures setting == 1 ==> h == mask
  {
    (mask * ToU64(setting)) % Modulus64
  }

  /** Bitwise or of two non-negative integers, taken bit by bit from the
      least significant end. */
  function BitOr(a: nat, b: nat): nat
    decreases a + b
  {
    if a == 0 then b
    else if b == 0 then a
    else 2 * BitOr(a / 2, b / 2) + (if a % 2 == 1 || b % 2 == 1 then 1 else 0)
  }

  /** Bitwise and of two non-negative integers. */
  function BitAnd(a: nat, b: nat): nat
    decreases a + b
  {
    if a == 0 || b == 0 then 0
    else 2 * BitAnd(a / 2, b / 2) + (if a % 2 == 1 && b % 2 == 1 then 1 else 0)
  }

  /** The bit-by-bit step of BitOr holds for zero arguments too. */
  lemma BitOrStep(a: nat, b: nat)
    ensures BitOr(a, b) == 2 * BitOr(a / 2, b / 2) + (if a % 2 == 1 || b % 2 == 1 then 1 else 0)
  {
    if a == 0 {
      assert BitOr(a / 2, b / 2) == b / 2;
    } else if b == 0 {
      assert BitOr(a / 2, b / 2) == a / 2;
    }
  }

  /** The bit-by-bit step of BitAnd holds for zero arguments too. */
  lemma BitAndStep(a: nat, b: nat)
    ensures BitAnd(a, b) == 2 * BitAnd(a / 2, b / 2) + (if a % 2 == 1 && b % 2 == 1 then 1 else 0)
  {
    if a == 0 || b == 0 {
      assert BitAnd(a / 2, b / 2) == 0;
    }
  }

  /** And distributes over or. */
  lemma {:induction false} BitAndOrDistributes(a: nat, b: nat, c: nat)
    ensures BitAnd(BitOr(a, b), c) == BitOr(BitAnd(a, c), BitAnd(b, c))
    decreases a + b + c
  {
    if a == 0 || b == 0 || c == 0 {
    } else {
      var o := BitOr(a, b);
      BitOrStep(a, b);
      assert o / 2 == BitOr(a / 2, b / 2);
      assert o % 2 == (if a % 2 == 1 || b % 2 == 1 then 1 else 0);
      BitAndStep(o, c);
      var x, y := BitAnd(a, c), BitAnd(b, c);
      BitAndStep(a, c);
      BitAndStep(b, c);
      assert x / 2 == BitAnd(a / 2, c / 2) && x % 2 == (if a % 2 == 1 && c % 2 == 1 then 1 else 0);
      assert y / 2 == BitAnd(b / 2, c / 2) && y % 2 == (if b % 2 == 1 && c % 2 == 1 then 1 else 0);
      BitOrStep(x, y);
      BitAndOrDistributes(a / 2, b / 2, c / 2);
    }
  }

  /** And with itself gives the value back. */
  lemma {:induction false} BitAndSelf(a: nat)
    ensures BitAnd(a, a) == a
  {
    if a > 0 {
      BitAndSelf(a / 2);
    }
  }

  /** And is symmetric. */
  lemma {:induction false} BitAndSymmetric(a: nat, b: nat)
    ensures BitAnd(a, b) == BitAnd(b, a)
    decreases a + b
  {
    if a > 0 && b > 0 {
      BitAndSymmetric(a / 2, b / 2);
    }
  }

  /** An or is zero only when both sides are. */
  lemma {:induction false} BitOrPositive(a: nat, b: nat)
    requires a > 0
    ensures BitOr(a, b) > 0
    decreases a + b
  {
    if b > 0 && a % 2 == 0 {
      BitOrPositive(a / 2, b / 2);
    }
  }

  /** The bitmap loader hint: the flip-vertical mask scaled by the flip
      setting. For an on/off setting it is the mask or nothing. */
  function BitmapLoaderHint(flipVerticalHint: U64, flip: int): (h: nat)
    ensures flip == 0 ==> h == 0
    ensures flip == 1 ==> h == flipVerticalHint
  {
    BitOr(0, ScaledHint(flipVerticalHint, flip))
  }

  /** The texture hint: the mipmaps mask scaled by the mipmaps setting, or-ed
      with the linear-interpolation mask scaled by the filter setting. For
      on/off settings it is the or of the masks of the settings that are on. */
  function TextureHint(mipmapsHint: U64, linearInterpolateHint: U64, mipmaps: int, filter: int): (h: nat)
    ensures mipmaps in {0, 1} && filter in {0, 1} ==>
      h == BitOr(if mipmaps == 1 then mipmapsHint else 0, if filter == 1 then linearInterpolateHint else 0)
  {
    BitOr(BitOr(0, ScaledHint(mipmapsHint, mipmaps)), ScaledHint(linearInterpolateHint, filter))
  }

  /** When the two masks are non-zero and share no bit, the texture hint of
      on/off settings tells which of them are on. */
  lemma TextureHintDecodes(mipmapsHint: U64, linearInterpolateHint: U64, mipmaps: int, filter: int)
    requires mipmapsHint != 0 && linearInterpolateHint != 0 && BitAnd(mipmapsHint, linearInterpolateHint) == 0
    requires mipmaps in {0, 1} && filter in {0, 1}
    ensures BitAnd(TextureHint(mipmapsHint, linearInterpolateHint, mipmaps, filter), mipmapsHint) != 0 <==> mipmaps == 1
    ensures BitAnd(TextureHint(mipmapsHint, linearInterpolateHint, mipmaps, filter), linearInterpolateHint) != 0 <==> filter == 1
  {
    var m: nat := if mipmaps == 1 then mipmapsHint else 0;
    var l: nat := if filter == 1 then linearInterpolateHint else 0;
    BitAndOrDistributes(m, l, mipmapsHint);
    BitAndOrDistributes(m, l, linearInterpolateHint);
    BitAndSelf(mipmapsHint);
    BitAndSelf(linearInterpolateHint);
    BitAndSymmetric(mipmapsHint, linearInterpolateHint);
    if mipmaps == 1 {
      BitOrPositive(BitAnd(m, mipmapsHint), BitAnd(l, mipmapsHint));
    }
    if filter == 1 {
      BitOrPositive(BitAnd(l, linearInterpolateHint), BitAnd(m, linearInterpolateHint));
      assert BitOr(BitAnd(m, linearInterpolateHint), BitAnd(l, linearInterpolateHint)) > 0 by {
        if m == 0 {
        } else {
          BitOrPositive(BitAnd(l, linearInterpolateHint), 0);
        }
      }
    }
  }

  class TgaModule {
    // inputs
    var filenameIn: string
    var reloadIn: int
    var mipmapsIn: int
    var flipVerticalIn: int
    var minMagFilterIn: int
    // module state
    var currentFilename: string
    var texture: Option<TextureHandle>
    var flipVerticalCache: int
    var mipmapsCache: int
    var minMagFilterCache: int
    var loadingDone: bool
    var message: string
    // output
    var textureOut: Option<TextureHandle>
    /** Every call made to the texture loader, in order. */
    var events: seq<LoaderEvent>

    /** The hint masks of vsx_bitmap and vsx_texture_gl. */
    const flipVerticalHint: U64
    const mipmapsHint: U64
    const linearInterpolateHint: U64

    /** texture_out shows the module's texture, and there is one exactly once
        the loader has been called. */
    ghost predicate Valid()
      reads this
    {
      && textureOut == texture
      && (texture == None <==> events == [])
      && (events != [] ==> events[|events| - 1].Load?)
    }

    /** The inputs differ from what the last load used, or a reload is asked for. */
    predicate NeedsReload()
      reads this
    {
      || currentFilename != filenameIn
      || reloadIn != 0
      || flipVerticalIn != flipVerticalCache
      || mipmapsIn != mipmapsCache
      || minMagFilterIn != minMagFilterCache
    }

    twostate predicate KeepsInputs()
      reads this
    {
      && filenameIn == old(filenameIn) && reloadIn == old(reloadIn)
      && mipmapsIn == old(mipmapsIn) && flipVerticalIn == old(flipVerticalIn)
      && minMagFilterIn == old(minMagFilterIn)
    }

    /** declare_params. The integer inputs other than the filter start at 0;
        the filter starts at 1 (linear). */
    constructor DeclareParams(flipHint: U64, mipHint: U64, linearHint: U64)
      ensures Valid()
      ensures filenameIn == "" && currentFilename == ""
      ensures reloadIn == 0 && mipmapsIn == 0 && flipVerticalIn == 0 && minMagFilterIn == 1
      ensures flipVerticalCache == 0 && mipmapsCache == 0 && minMagFilterCache == 1
      ensures texture == None && events == []
      ensures flipVerticalHint == flipHint && mipmapsHint == mipHint && linearInterpolateHint == linearHint
      ensures !NeedsReload()
    {
      flipVerticalHint := flipHint;
      mipmapsHint := mipHint;
      linearInterpolateHint := linearHint;
      flipVerticalCache := 0;
      mipmapsCache := 0;
      minMagFilterCache := 1;
      texture := None;
      loadingDone := false;
      message := "";
      filenameIn := "";
      currentFilename := "";
      reloadIn := 0;
      mipmapsIn := 0;
      flipVerticalIn := 0;
      minMagFilterIn := 1;
      textureOut := None;
      events := [];
    }

    /** The first step of run(): a texture whose bitmap has finished
        loading is reported as loaded. */
    method ReportLoading(dataReady: bool)
      modifies this`loadingDone, this`message
      ensures if texture.Some? && dataReady then loadingDone && message == OkMessage
              else loadingDone == old(loadingDone) && message == old(message)
    {
      if texture.Some? && dataReady {
        loadingDone := true;
        message := OkMessage;
      }
    }

    /** The five comparisons of run(): a reload is due exactly when the
        module needs one. */
    method DecideReload() returns (reload: bool)
      ensures reload == NeedsReload()
    {
      reload := false;
      if currentFilename != filenameIn {
        reload := true;
      }
      if reloadIn != 0 {
        reload := true;
      }
      if flipVerticalIn != flipVerticalCache {
        reload := true;
      }
      if mipmapsIn != mipmapsCache {
        reload := true;
      }
      if minMagFilterIn != minMagFilterCache {
        reload := true;
      }
    }

    /** The reload part of run(). isTga is verify_filesuffix's answer for
        filename_in, and loaded the handle vsx_texture_loader::load returns. */
    method Reload(isTga: bool, loaded: TextureHandle)
      requires Valid() && NeedsReload()
      modifies this`flipVerticalCache, this`mipmapsCache, this`minMagFilterCache, this`reloadIn
      modifies this`filenameIn, this`message, this`currentFilename, this`events, this`texture, this`textureOut
      ensures Valid() && !NeedsReload()
      // The caches take the settings and the reload flag is cleared,
      // whatever the suffix check says.
      ensures flipVerticalCache == flipVerticalIn && mipmapsCache == mipmapsIn && minMagFilterCache == minMagFilterIn
      ensures reloadIn == 0
      // A name without the tga suffix is reverted and the texture is kept.
      ensures !isTga ==>
        && filenameIn == old(currentFilename) && currentFilename == old(currentFilename)
        && message == NotTgaMessage && texture == old(texture) && events == old(events)
      // Any other name becomes current; the old texture is destroyed unless
      // the reload was forced, and the new one is loaded and output.
      ensures isTga ==>
        && filenameIn == old(filenameIn) && currentFilename == old(filenameIn)
        && message == old(message) && texture == Some(loaded)
        && events == old(events)
             + (if old(texture).Some? && old(reloadIn) == 0 then [Destroy(old(texture).value)] else [])
             + [Load(old(filenameIn), BitmapLoaderHint(flipVerticalHint, flipVerticalIn),
                     TextureHint(mipmapsHint, linearInterpolateHint, mipmapsIn, minMagFilterIn),
                     old(reloadIn) != 0)]
    {
      mipmapsCache := mipmapsIn;
      flipVerticalCache := flipVerticalIn;
      minMagFilterCache := minMagFilterIn;
      var doReload := reloadIn != 0;
      reloadIn := 0;
      if !isTga {
        filenameIn := currentFilename;
        message := NotTgaMessage;
        return;
      }
      currentFilename := filenameIn;
      if texture.Some? && !doReload {
        events := events + [Destroy(texture.value)];
      }
      var bitmapLoaderHint := BitmapLoaderHint(flipVerticalHint, flipVerticalCache);
      var hint := TextureHint(mipmapsHint, linearInterpolateHint, mipmapsCache, minMagFilterCache);
      events := events + [Load(currentFilename, bitmapLoaderHint, hint, doReload)];
      texture := Some(loaded);
      textureOut := texture;
    }

    /** run(). dataReady says whether the current texture's bitmap has
        finished loading, verifySuffix stands for verify_filesuffix, and
        loaded is the handle vsx_texture_loader::load returns. The suffix
        check reads only filename_in, which nothing before it in run()
        changes, so it is asked first. */
    method Run(dataReady: bool, verifySuffix: (string, string) -> bool, loaded: TextureHandle)
      requires Valid()
      modifies this
      ensures Valid()
      ensures mipmapsIn == old(mipmapsIn) && flipVerticalIn == old(flipVerticalIn)
      ensures minMagFilterIn == old(minMagFilterIn)
      // Afterwards nothing calls for a reload, so a second run() with the
      // same inputs loads nothing.
      ensures !NeedsReload()
      // A loaded texture is reported ready.
      ensures if old(texture).Some? && dataReady then loadingDone else loadingDone == old(loadingDone)
      // Nothing to reload: nothing else changes.
      ensures !old(NeedsReload()) ==>
        && KeepsInputs() && currentFilename == old(currentFilename)
        && flipVerticalCache == old(flipVerticalCache) && mipmapsCache == old(mipmapsCache)
        && minMagFilterCache == old(minMagFilterCache)
        && texture == old(texture) && events == old(events)
        && message == (if old(texture).Some? && dataReady then OkMessage else old(message))
      // A reload refreshes the caches and clears the reload flag, whatever
      // the suffix check says.
      ensures old(NeedsReload()) ==>
        && flipVerticalCache == old(flipVerticalIn) && mipmapsCache == old(mipmapsIn)
        && minMagFilterCache == old(minMagFilterIn) && reloadIn == 0
      // A name without the tga suffix is reverted and the texture is kept.
      ensures old(NeedsReload()) && !verifySuffix(old(filenameIn), "tga") ==>
        && filenameIn == old(currentFilename) && currentFilename == old(currentFilename)
        && message == NotTgaMessage && texture == old(texture) && events == old(events)
      // Any other name becomes current; the old texture is destroyed unless
      // the reload was forced, and the new one is loaded and output.
      ensures old(NeedsReload()) && verifySuffix(old(filenameIn), "tga") ==>
        && filenameIn == old(filenameIn) && currentFilename == old(filenameIn)
        && message == (if old(texture).Some? && dataReady then OkMessage else old(message))
        && texture == Some(loaded)
        && events == old(events)
             + (if old(texture).Some? && old(reloadIn) == 0 then [Destroy(old(texture).value)] else [])
             + [Load(old(filenameIn), BitmapLoaderHint(flipVerticalHint, old(flipVerticalIn)),
                     TextureHint(mipmapsHint, linearInterpolateHint, old(mipmapsIn), old(minMagFilterIn)),
                     old(reloadIn) != 0)]
    {
      var isTga := verifySuffix(filenameIn, "tga");
      ReportLoading(dataReady);
      var reload := DecideReload();
      if !reload {
        return;
      }
      Reload(isTga, loaded);
    }

    /** on_delete: the texture, if any, is destroyed. */
    method OnDelete()
      requires Valid()
      modifies this`events
      ensures events == old(events) + (if texture.Some? then [Destroy(texture.value)] else [])
    {
      if texture.Some? {
        events := events + [Destroy(texture.value)];
      }
    }
  }

  /** Default settings never reload by themselves, and a rejected name is not
      retried: a fresh module given a name without the tga suffix runs twice
      and never calls the loader. */
  method RejectedNameScenario(verifySuffix: (string, string) -> bool, name: string, hints: U64)
    returns (loaderCalls: nat, reverted: string)
    requires name != "" && !verifySuffix(name, "tga")
    ensures loaderCalls == 0 && reverted == ""
  {
    var m := new TgaModule.DeclareParams(hints, hints, hints);
    m.filenameIn := name;
    m.Run(false, verifySuffix, 0);
    m.Run(false, verifySuffix, 1);
    loaderCalls := |m.events|;
    reverted := m.filenameIn;
  }

  /** A forced reload with unchanged settings keeps the current texture alive
      during the load: no destroy call precedes the load it asks for. */
  method ForcedReloadScenario(verifySuffix: (string, string) -> bool, name: string)
    returns (calls: seq<LoaderEvent>)
    requires name != "" && verifySuffix(name, "tga")
    ensures calls == [Load(name, 0, 0x2, false), Load(name, 0, 0x2, true)]
  {
    var m := new TgaModule.DeclareParams(0x1, 0x4, 0x2);
    m.filenameIn := name;
    m.Run(false, verifySuffix, 0);
    m.reloadIn := 1;
    m.Run(false, verifySuffix, 1);
    calls := m.events;
  }
}
