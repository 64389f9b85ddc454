/** The texture loader of src/texture.rs.

    `load_texture` creates a texture object, uploads a 1x1 placeholder into
    it, and registers an `onload` callback on an image element; when the
    image arrives the callback rebinds the same texture, overwrites its
    contents with the image, and either generates a mipmap chain (both
    dimensions powers of two) or forces clamp-to-edge wrapping and linear
    minification.

    The WebGL context is foreign; its texture state is modelled by the class
    `Gl` below: a table of texture objects (contents and parameters) and the
    TEXTURE_2D binding. Every upload uses format RGBA and type
    UNSIGNED_BYTE, so the format is not recorded. */
module Texture {
  import opened Wrappers

  // ---------------------------------------------------------------------
  // is_power_of_2
  // ---------------------------------------------------------------------

  /** `num & (num - 1) == 0` on a `u32`. The subtraction wraps as in a
      release build, so 0 passes the test (0 - 1 is 0xFFFF_FFFF). */
  function IsPowerOf2(num: bv32): (r: bool)
    ensures num == 0 ==> r
  {
    num & (num - 1) == 0
  }

  /** The `u32` whose only set bit is bit `k`, that is 2 to the `k`. */
  function Bit(k: bv32): bv32
    requires k < 32
  {
    1 << k
  }

  /** `n` is 2 to the `k` for some `k` in 0..31. */
  ghost predicate IsPowerOfTwoValue(n: bv32)
  {
    exists k: bv32 :: k < 32 && n == Bit(k)
  }

  /** The index of the highest set bit (0 for 0 and 1). */
  function Log2(n: bv32): (k: bv32)
    ensures k < 32
    ensures n != 0 ==> n >> k == 1
    decreases n
  {
    if n <= 1 then 0 else 1 + Log2(n >> 1)
  }

  /** A non-zero number that passes the test has a single set bit, at `Log2(n)`. */
  lemma {:induction false} PassingHasSingleBit(n: bv32)
    requires n != 0 && IsPowerOf2(n)
    ensures n == Bit(Log2(n))
    decreases n
  {
    if n > 1 {
      assert n & 1 == 0;
      assert n >> 1 != 0 && IsPowerOf2(n >> 1);
      PassingHasSingleBit(n >> 1);
      var k := Log2(n >> 1);
      assert n == (n >> 1) << 1;
      assert (1 << k) << 1 == (1 as bv32) << (k + 1);
    }
  }

  /** A number with a single set bit passes the test. */
  lemma SingleBitPasses(k: bv32)
    requires k < 32
    ensures Bit(k) != 0 && IsPowerOf2(Bit(k))
  {}

  /** For every non-zero `u32`, the bit trick holds exactly of the powers of two
      1, 2, 4, ..., 2^31. */
  lemma PowerOf2Correct(n: bv32)
    requires n != 0
    ensures IsPowerOf2(n) <==> IsPowerOfTwoValue(n)
  {
    if IsPowerOf2(n) {
      PassingHasSingleBit(n);
    }
    if IsPowerOfTwoValue(n) {
      var k :| k < 32 && n == Bit(k);
      SingleBitPasses(k);
    }
  }

  /** Over all of `u32`, with the wrap-around: the test passes exactly for 0
      and the powers of two. */
  lemma PowerOf2OrZero(n: bv32)
    ensures IsPowerOf2(n) <==> n == 0 || IsPowerOfTwoValue(n)
  {
    if n != 0 {
      PowerOf2Correct(n);
    }
  }

  // ---------------------------------------------------------------------
  // Texture objects and their parameters
  // ---------------------------------------------------------------------

  /** Pixel data as uploaded by `tex_image_2d` (RGBA, one byte per channel). */
  datatype Image = Image(width: bv32, height: bv32, pixels: seq<bv8>)

  /** The placeholder of `load_texture`: one opaque black RGBA pixel. */
  const Placeholder: Image := Image(1, 1, [0, 0, 0, 255])

  /** TEXTURE_WRAP_S / TEXTURE_WRAP_T values used here; REPEAT is WebGL's default. */
  datatype Wrap = Repeat | ClampToEdge

  /** TEXTURE_MIN_FILTER values used here; NEAREST_MIPMAP_LINEAR is WebGL's default. */
  datatype MinFilter = NearestMipmapLinear | Linear

  /** One `tex_parameteri` call on TEXTURE_2D. */
  datatype TexParameter = WrapS(wrap: Wrap) | WrapT(wrap: Wrap) | MinFilterOf(filter: MinFilter)

  /** The state of one texture object: the level-0 image, the sampling
      parameters, and whether the mipmap chain was generated from the
      current level-0 image. */
  datatype Slot = Slot(image: Image, wrapS: Wrap, wrapT: Wrap, minFilter: MinFilter, mipmapped: bool)
  {
    /** The slot after one `tex_parameteri`. */
    function With(p: TexParameter): Slot
    {
      match p
      case WrapS(w) => this.(wrapS := w)
      case WrapT(w) => this.(wrapT := w)
      case MinFilterOf(f) => this.(minFilter := f)
    }
  }

  /** A freshly created texture object: no image, default parameters. */
  const Blank: Slot := Slot(Image(0, 0, []), Repeat, Repeat, NearestMipmapLinear, false)

  /** What the onload callback leaves in a slot once the image upload is
      accepted: the image replaces the contents; a mipmap chain is generated
      exactly when both dimensions pass `is_power_of_2`, and otherwise the
      slot clamps to the edge in both directions and filters linearly. */
  function Loaded(before: Slot, img: Image): (after: Slot)
    ensures after.image == img
    ensures after.mipmapped <==>
      (img.width == 0 || IsPowerOfTwoValue(img.width)) && (img.height == 0 || IsPowerOfTwoValue(img.height))
    ensures after.mipmapped ==>
      after.wrapS == before.wrapS && after.wrapT == before.wrapT && after.minFilter == before.minFilter
    ensures !after.mipmapped ==>
      after.wrapS == ClampToEdge && after.wrapT == ClampToEdge && after.minFilter == Linear
  {
    PowerOf2OrZero(img.width);
    PowerOf2OrZero(img.height);
    var uploaded := before.(image := img, mipmapped := false);
    if IsPowerOf2(img.width) && IsPowerOf2(img.height) then
      uploaded.(mipmapped := true)
    else
      uploaded.With(WrapS(ClampToEdge)).With(WrapT(ClampToEdge)).With(MinFilterOf(Linear))
  }

  /** A texture handle (`WebGlTexture`). Handles are never reused. */
  type Handle = nat

  /** The texture state of a WebGL context. */
  class Gl {
    /** Every texture object created so far, by handle. */
    var slots: map<Handle, Slot>
    /** The texture bound to TEXTURE_2D. */
    var binding: Option<Handle>
    /** The handle the next `create_texture` returns. */
    var next: Handle

    ghost predicate Valid()
      reads this
    {
      && (forall h :: h in slots ==> h < next)
      && (binding.Some? ==> binding.value in slots)
    }

    constructor ()
      ensures Valid()
      ensures slots == map[] && binding == None && next == 0
    {
      slots := map[];
      binding := None;
      next := 0;
    }

    /** `create_texture`; `available` says whether the context hands one out. */
    method CreateTexture(available: bool) returns (t: Option<Handle>)
      requires Valid()
      modifies this
      ensures Valid()
      ensures t.Some? <==> available
      ensures t.Some? ==> t.value == old(next) && t.value !in old(slots)
      ensures slots == if available then old(slots)[old(next) := Blank] else old(slots)
      ensures next == if available then old(next) + 1 else old(next)
      ensures binding == old(binding)
      ensures !available ==> unchanged(this)
    {
      if available {
        t := Some(next);
        slots := slots[next := Blank];
        next := next + 1;
      } else {
        t := None;
      }
    }

    /** `bind_texture(TEXTURE_2D, Some(t))`. */
    method BindTexture(t: Handle)
      requires Valid() && t in slots
      modifies this`binding
      ensures Valid()
      ensures binding == Some(t)
    {
      binding := Some(t);
    }

    /** `tex_image_2d` at level 0 into the bound texture; `accepted` says
        whether the call returns `Ok`. A new level 0 makes the old mipmap
        chain stale. */
    method TexImage2D(img: Image, accepted: bool) returns (ok: bool)
      requires Valid() && binding.Some?
      modifies this`slots
      ensures Valid()
      ensures ok == accepted
      ensures slots == if ok
        then old(slots)[binding.value := old(slots)[binding.value].(image := img, mipmapped := false)]
        else old(slots)
    {
      ok := accepted;
      if ok {
        var b := binding.value;
        slots := slots[b := slots[b].(image := img, mipmapped := false)];
      }
    }

    /** `tex_parameteri` on the bound texture. */
    method TexParameteri(p: TexParameter)
      requires Valid() && binding.Some?
      modifies this`slots
      ensures Valid()
      ensures slots == old(slots)[binding.value := old(slots)[binding.value].With(p)]
    {
      var b := binding.value;
      slots := slots[b := slots[b].With(p)];
    }

    /** `generate_mipmap(TEXTURE_2D)` on the bound texture. */
    method GenerateMipmap()
      requires Valid() && binding.Some?
      modifies this`slots
      ensures Valid()
      ensures slots == old(slots)[binding.value := old(slots)[binding.value].(mipmapped := true)]
    {
      var b := binding.value;
      slots := slots[b := slots[b].(mipmapped := true)];
    }
  }

  // ---------------------------------------------------------------------
  // The onload closure and load_texture
  // ---------------------------------------------------------------------

  /** The `onload` closure: it captures the context `g` and a clone `t` of
      the texture handle. `live` is false once the Rust `Closure` has been
      dropped; from then on the JavaScript function throws when called. */
  class OnLoad {
    const gl: Gl
    const texture: Handle
    var live: bool

    constructor (gl: Gl, texture: Handle)
      ensures this.gl == gl && this.texture == texture && live
    {
      this.gl := gl;
      this.texture := texture;
      live := true;
    }

    /** Dropping the Rust `Closure` invalidates the JavaScript function. */
    method Drop()
      modifies this
      ensures !live
    {
      live := false;
    }

    /** The image element fires `load` with the decoded `img`; `accepted`
        says whether the browser accepts the upload (`tex_image_2d` returns
        `Ok`; otherwise the closure rethrows). Returns whether the call threw. */
    method Fire(img: Image, accepted: bool) returns (thrown: bool)
      requires gl.Valid() && texture in gl.slots
      modifies gl
      ensures gl.Valid()
      ensures thrown <==> !live || !accepted
      ensures !live ==> unchanged(gl)
      ensures live ==> gl.binding == Some(texture) && gl.next == old(gl.next)
      ensures live && accepted ==>
        gl.slots == old(gl.slots)[texture := Loaded(old(gl.slots)[texture], img)]
      ensures live && !accepted ==> gl.slots == old(gl.slots)
    {
      if !live {
        return true;
      }
      gl.BindTexture(texture);
      var ok := gl.TexImage2D(img, accepted);
      if !ok {
        return true;
      }
      PowerOf2OrZero(img.width);
      PowerOf2OrZero(img.height);
      if IsPowerOf2(img.width) && IsPowerOf2(img.height) {
        gl.GenerateMipmap();
      } else {
        gl.TexParameteri(WrapS(ClampToEdge));
        gl.TexParameteri(WrapT(ClampToEdge));
        gl.TexParameteri(MinFilterOf(Linear));
      }
      thrown := false;
    }
  }

  /** The browser environment `load_texture` depends on: whether
      `create_texture` returns a texture, whether the placeholder upload
      returns `Ok`, whether `window()` and `document()` exist, and whether an
      `img` element can be created and cast to `HtmlImageElement`. */
  datatype Host = Host(
    textureAvailable: bool,
    placeholderAccepted: bool,
    hasWindow: bool,
    hasDocument: bool,
    imageElement: bool)

  /** The failures of `load_texture`, in the order they are checked. */
  datatype LoadError =
    | NoTexture             // "Failed to initialize texture."
    | PlaceholderRejected   // the JavaScript error of the placeholder upload
    | NoWindow              // "Failed to get window object."
    | NoDocument            // "Failed to get document object."
    | NoImageElement        // the JavaScript error of create_element / dyn_into

  /** A started load: the texture handle returned, and the callback that
      will fill it. */
  datatype Loading = Loading(texture: Handle, onload: OnLoad)

  /** The first failure of `load_texture` for a given host, if any. */
  function FirstFailure(host: Host): (e: Option<LoadError>)
    ensures e == None <==>
      host.textureAvailable && host.placeholderAccepted && host.hasWindow && host.hasDocument && host.imageElement
  {
    if !host.textureAvailable then Some(NoTexture)
    else if !host.placeholderAccepted then Some(PlaceholderRejected)
    else if !host.hasWindow then Some(NoWindow)
    else if !host.hasDocument then Some(NoDocument)
    else if !host.imageElement then Some(NoImageElement)
    else None
  }

  /** Everything `load_texture` does up to `img.set_src(url)`: the slot it
      creates holds the placeholder from the moment the upload succeeds,
      whatever fails afterwards, and the callback it registers targets that
      same slot. */
  method StartLoad(gl: Gl, host: Host) returns (r: Result<Loading, LoadError>)
    requires gl.Valid()
    modifies gl
    ensures gl.Valid()
    ensures r.Err? <==> FirstFailure(host).Some?
    ensures r.Err? ==> r.error == FirstFailure(host).value
    ensures !host.textureAvailable ==> unchanged(gl)
    ensures host.textureAvailable ==>
      && gl.next == old(gl.next) + 1
      && gl.binding == Some(old(gl.next))
      && gl.slots == old(gl.slots)[old(gl.next) :=
           if host.placeholderAccepted then Blank.(image := Placeholder) else Blank]
    ensures r.Ok? ==>
      && r.value.texture == old(gl.next)
      && r.value.onload.texture == r.value.texture
      && r.value.onload.gl == gl
      && r.value.onload.live
      && fresh(r.value.onload)
  {
    var created := gl.CreateTexture(host.textureAvailable);
    if created.None? {
      return Err(NoTexture);
    }
    var texture := created.value;
    gl.BindTexture(texture);
    var ok := gl.TexImage2D(Placeholder, host.placeholderAccepted);
    if !ok {
      return Err(PlaceholderRejected);
    }
    if !host.hasWindow {
      return Err(NoWindow);
    }
    if !host.hasDocument {
      return Err(NoDocument);
    }
    if !host.imageElement {
      return Err(NoImageElement);
    }
    var onload := new OnLoad(gl, texture);
    r := Ok(Loading(texture, onload));
  }

  /** `load_texture` as written: the `Closure` is a local that is never
      `forget()`-ten, so it is dropped when the function returns and the
      callback it registered is dead. */
  method LoadTextureAsWritten(gl: Gl, host: Host) returns (r: Result<Loading, LoadError>)
    requires gl.Valid()
    modifies gl
    ensures gl.Valid()
    ensures r.Err? <==> FirstFailure(host).Some?
    ensures r.Err? ==> r.error == FirstFailure(host).value
    ensures !host.textureAvailable ==> unchanged(gl)
    ensures host.textureAvailable ==>
      && gl.next == old(gl.next) + 1
      && gl.binding == Some(old(gl.next))
      && gl.slots == old(gl.slots)[old(gl.next) :=
           if host.placeholderAccepted then Blank.(image := Placeholder) else Blank]
    ensures r.Ok? ==>
      && r.value.texture == old(gl.next)
      && r.value.texture !in old(gl.slots)
      && r.value.onload.texture == r.value.texture
      && r.value.onload.gl == gl
      && fresh(r.value.onload)
    ensures r.Ok? ==> !r.value.onload.live
  {
    r := StartLoad(gl, host);
    if r.Ok? {
      r.value.onload.Drop();
    }
  }

  /** `load_texture` with the callback kept alive (`onload.forget()` before
      returning): the texture is returned holding the placeholder, and the
      live callback targets it. */
  method LoadTexture(gl: Gl, host: Host) returns (r: Result<Loading, LoadError>)
    requires gl.Valid()
    modifies gl
    ensures gl.Valid()
    ensures r.Err? <==> FirstFailure(host).Some?
    ensures r.Err? ==> r.error == FirstFailure(host).value
    ensures !host.textureAvailable ==> unchanged(gl)
    ensures host.textureAvailable ==>
      && gl.next == old(gl.next) + 1
      && gl.binding == Some(old(gl.next))
      && gl.slots == old(gl.slots)[old(gl.next) :=
           if host.placeholderAccepted then Blank.(image := Placeholder) else Blank]
    ensures r.Ok? ==>
      && r.value.texture == old(gl.next)
      && r.value.texture !in old(gl.slots)
      && r.value.onload.texture == r.value.texture
      && r.value.onload.gl == gl
      && fresh(r.value.onload)
    ensures r.Ok? ==> r.value.onload.live
  {
    r := StartLoad(gl, host);
  }

  /** The host in which every step of `load_texture` succeeds. */
  const Browser: Host := Host(true, true, true, true, true)

  /** As written, on any valid context, a texture that loads successfully
      and whose image then arrives still shows the placeholder: the dropped
      callback throws. */
  method DroppedCallbackKeepsPlaceholder(gl: Gl, img: Image) returns (shown: Image)
    requires gl.Valid()
    modifies gl
    ensures shown == Placeholder
  {
    var r := LoadTextureAsWritten(gl, Browser);
    var loading := r.value;
    var thrown := loading.onload.Fire(img, true);
    assert thrown;
    shown := gl.slots[loading.texture].image;
  }

  /** With the callback kept alive, on any valid context, the same handle
      that `load_texture` returned shows the image once it arrives. */
  method KeptCallbackShowsImage(gl: Gl, img: Image) returns (shown: Image, mipmapped: bool)
    requires gl.Valid()
    modifies gl
    ensures shown == img
    ensures mipmapped <==> IsPowerOf2(img.width) && IsPowerOf2(img.height)
  {
    var r := LoadTexture(gl, Browser);
    var loading := r.value;
    var thrown := loading.onload.Fire(img, true);
    shown := gl.slots[loading.texture].image;
    mipmapped := gl.slots[loading.texture].mipmapped;
    PowerOf2OrZero(img.width);
    PowerOf2OrZero(img.height);
  }
}
