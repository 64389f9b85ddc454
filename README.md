# parametric_surfaces — a Dafny model of its own logic

The repository draws parametric shapes (nested cubes, a torus, a triforce)
with WebGL from Rust compiled to WebAssembly, inside a small React front end.
Almost all of it is calls into WebGL and nalgebra. This project models the
parts whose behaviour the repository itself decides, and proves what they
promise:

- **Texture loading** (`src/texture.rs`, module `Texture`): the bit-trick
  power-of-two test on `u32` (as `bv32`, with the wrap-around of `0 - 1`),
  and `load_texture` as a state machine over an abstract WebGL texture state
  (class `Gl`: texture objects with their image and parameters, and the
  TEXTURE_2D binding). A 1x1 placeholder is uploaded first. The `onload`
  callback (class `OnLoad`) later rebinds the same handle, replaces the
  contents, and then either generates mipmaps or sets clamp-to-edge and linear
  filtering. The host's answers (does `create_texture` return a texture, is an
  upload accepted, are `window` and `document` present, can an `img` element be
  made) are parameters (`Host`, and the `accepted` flags).
- **The two UI reducers** (`app/index/reducer.ts` as `IndexReducer`,
  `app/components/canvas/reducer.ts` as `CanvasReducer`): pure transitions over
  a three-field state record. `Run` folds a sequence of dispatched actions, as
  `useReducer` does.
- **The uniform-location table** (`map_uniform_locations` in
  `src/parametric_surfaces/mod.rs`, module `ParametricSurfaces`): a loop over
  the names `p`, `v`, `m` that fills a map and returns at the first name with
  no location. The GL query is a parameter `lookup: string -> Option<L>`.
- **Matrix flattening** (`fmt_mat_f32!` in `src/macros.rs`, module `Macros`):
  a 4x4 matrix as four inner arrays of four, flattened in outer-then-inner
  order. The element type is generic, because only the layout matters. The
  torus module writes the same `into_iter().flatten().collect()` chain by hand
  (`src/parametric_surfaces/torus/transform.rs:12-14`). The same `Flatten`
  function models both, so they agree by construction.

`Wrappers` holds `Option` and `Result`.

## Model

| member | source | states |
|---|---|---|
| `Texture.IsPowerOf2` | src/texture.rs:57-59 | `num & (num - 1) == 0` on `u32`. With the release-build wrap-around, 0 passes the test. |
| `Texture.PowerOf2Correct` | src/texture.rs:57-59 | For every non-zero `u32`, the test passes exactly when n is `1 << k` (2 to the k) for some k in 0..31. |
| `Texture.PowerOf2OrZero` | src/texture.rs:58 | Over all of `u32`, the test passes exactly for 0 and for the 32 powers of two. |
| `Texture.Loaded` | src/texture.rs:33-47 | After the onload upload, the slot holds the image. A mipmap chain is generated iff both width and height pass the test (0 or a power of two). Otherwise WRAP_S and WRAP_T are CLAMP_TO_EDGE and MIN_FILTER is LINEAR. With mipmaps, the parameters are untouched. |
| `Texture.Gl.CreateTexture` | src/texture.rs:10-11 | `create_texture` returns a fresh, never-used handle to a blank texture, or nothing (then the state is unchanged). |
| `Texture.Gl.BindTexture` | src/texture.rs:14 | TEXTURE_2D is bound to the given handle. |
| `Texture.Gl.TexImage2D` | src/texture.rs:15-19 | An accepted level-0 upload replaces the bound texture's image and makes its mipmaps stale. A rejected upload changes nothing. |
| `Texture.Gl.TexParameteri` | src/texture.rs:44-46 | Only the named parameter of the bound texture changes. |
| `Texture.Gl.GenerateMipmap` | src/texture.rs:42 | The bound texture has a mipmap chain for its current image. |
| `Texture.OnLoad.Fire` | src/texture.rs:32-48 | A live callback rebinds its own captured handle. If the upload is accepted, that slot becomes `Loaded(old slot, image)` and no other slot changes. If rejected, it throws and the slots are unchanged. A dropped callback throws and changes nothing. |
| `Texture.OnLoad.Drop` | src/texture.rs:32-55 | Once the Rust closure is dropped, the callback is dead. |
| `Texture.FirstFailure` | src/texture.rs:10-27 | `load_texture` fails iff one of its five steps fails. The first failing step, in source order, names the error. |
| `Texture.StartLoad` | src/texture.rs:9-52 | If `create_texture` yields nothing, the call fails and touches nothing. Otherwise the new handle is bound, and it holds the 1x1 `[0,0,0,255]` placeholder whenever that upload was accepted, even if a later step (window, document, image element) fails. On success the registered callback targets that same handle on the same context. |
| `Texture.LoadTextureAsWritten` | src/texture.rs:32-54 | As written. The error is the first failing step. If `create_texture` yields nothing, the context is unchanged. Otherwise the new handle (never used before) is bound, holds the placeholder once that upload is accepted, and no other slot changes. On success the returned handle is that one, and its callback is already dead, because the closure is dropped at the end of the function. |
| `Texture.LoadTexture` | src/texture.rs:9-54 | Corrected. It has the same error, frame and placeholder facts as the as-written function, and on success the callback that targets the returned handle is live. |
| `Texture.DroppedCallbackKeepsPlaceholder` | src/texture.rs:32-54 | As written, on any valid context, a successful load followed by the image's load event still shows the placeholder. |
| `Texture.KeptCallbackShowsImage` | src/texture.rs:29-54 | With the callback kept alive, on any valid context, the handle returned by the load shows the image once it arrives. Its mipmap flag is the power-of-two decision. |
| `IndexReducer.InitialState` | app/index/reducer.ts:18-22 | `animationID` and `parametricSurface` are null, and `error` is false. |
| `IndexReducer.Reduce` | app/index/reducer.ts:24-39 | `Err` sets `error`. `SetAnimationID` and `SetSurface` set their own field to the payload. Each leaves every other field as it was. An unrecognised kind returns the state itself. |
| `IndexReducer.Run` | app/index/index.tsx:19 | `useReducer`'s dispatch of a sequence of actions, applied in order. Once `error` is set, the fold keeps it set. |
| `IndexReducer.RunError` | app/index/reducer.ts:24-39 | After any action sequence, `error` is true iff it was true before or some action is `Err`. No action clears it. |
| `IndexReducer.RunAnimationID` | app/index/reducer.ts:29-31 | After any action sequence, `animationID` is the payload of the last `SetAnimationID`, or the initial value if there is none. |
| `IndexReducer.Idempotent` | app/index/reducer.ts:26-34 | Applying the same action twice gives the same state as applying it once. |
| `CanvasReducer.InitialState` | app/components/canvas/reducer.ts:18-22 | `wasm` and `parametricSurface` are null, and `error` is false. |
| `CanvasReducer.Reduce` | app/components/canvas/reducer.ts:24-38 | `SetWasm` and `SetSurface` set their own field to the payload. `Err` sets `error`. Each leaves every other field as it was. An unrecognised kind returns the state itself. |
| `CanvasReducer.Run` | app/components/canvas/canvas.tsx:13 | `useReducer`'s dispatch of a sequence of actions, applied in order. Once `error` is set, the fold keeps it set. |
| `CanvasReducer.RunError` | app/components/canvas/reducer.ts:24-38 | After any action sequence, `error` is true iff it was true before or some action is `Err`. The flag is monotone. |
| `CanvasReducer.RunWasm` | app/components/canvas/reducer.ts:26-27 | After any action sequence, `wasm` is the payload of the last `SetWasm`, or the initial value if there is none. |
| `CanvasReducer.Idempotent` | app/components/canvas/reducer.ts:26-33 | Applying the same action twice gives the same state as applying it once. |
| `ParametricSurfaces.MissingUniform` | src/parametric_surfaces/mod.rs:94 | The error text is the fixed prefix and suffix around the uniform's name. The name can be read back from it. |
| `ParametricSurfaces.MapUniformLocations` | src/parametric_surfaces/mod.rs:87-100 | The result is Ok iff all of `p`, `v`, `m` have a location. On Ok, the keys are exactly `{p, v, m}`, each value is what the lookup answered, and the names were looked up in order. On error, the message names the first missing name, no name after it was looked up, and no map is returned. |
| `Macros.Flatten` | src/macros.rs:6 | `into_iter().flatten().collect()`. Every element of every inner sequence appears in the result. |
| `Macros.FlattenOnlyFromRows` | src/macros.rs:6 | Every element of the flattened result comes from one of the inner sequences. |
| `Macros.FmtMat` | src/macros.rs:2-9 | The output has 16 elements, and element `4*c + r` is element `r` of inner array `c`. |
| `Macros.FlattenRowsOfFour` | src/parametric_surfaces/torus/transform.rs:12-14 | Flattening n inner arrays of four gives 4n elements, with inner array c, element k at index `4*c + k`. |
| `Macros.ChunksOfFlatten` | src/macros.rs:6 | Cutting the flattened output into consecutive chunks of four gives back the inner arrays. Nothing is dropped, duplicated or reordered. |
| `Macros.FlattenOfChunks` | src/macros.rs:6 | Flattening the chunks of four of any sequence whose length is a multiple of 4 gives back that sequence. |
| `Macros.FmtMatRoundTrip` | src/macros.rs:5-6 | The matrix can be recovered from the macro's output. |
| `Macros.FmtMatOnto` | src/macros.rs:5-6 | Every 16-element sequence is the macro's output for the matrix made of its chunks of four. |

## Findings

| source | as written | input that shows it | evidently intended | confidence | as-written member | corrected member |
|---|---|---|---|---|---|---|
| src/texture.rs:32-54 | The `onload` closure is a local `Closure` that is never `forget()`-ten. It is dropped when `load_texture` returns. wasm-bindgen then invalidates the JavaScript function, so the image's load event throws and the texture keeps the placeholder for ever. | Any host where every step succeeds, followed by the image's load event (any image). | Keep the callback alive (`onload.forget()`), so that the loaded image replaces the placeholder in the same texture. | not executed; high (this is wasm-bindgen's documented drop behaviour for `Closure`) | `Texture.DroppedCallbackKeepsPlaceholder` | `Texture.KeptCallbackShowsImage` |

`Texture.LoadTextureAsWritten` models the code as written. `Texture.LoadTexture`
is the corrected function. Both share `Texture.StartLoad`.

## Left out

- `Texture.IsPowerOf2` models the release build, where `0 - 1` wraps. A debug build panics on 0 instead; that variant is not modelled.
- Image fetching and decoding (`img.set_src(url)`) belong to the browser. The decoded image reaches the model as the argument of `OnLoad.Fire`. A failed decode never fires the callback, and the model says nothing about it.
- The JavaScript error values are not modelled. A rejected upload, or a failed `create_element`/`dyn_into`, is only a constructor of `LoadError`.
- `Texture.Gl` records only what `load_texture` touches: the level-0 image, wrap S/T, the minification filter and whether mipmaps exist. It leaves out other levels, the magnification filter, formats and GL error flags. Every upload is RGBA / UNSIGNED_BYTE.
- `load_texture` is a private function that nothing in the repository calls, so no renderer in the model uses it.
- `IndexReducer.Reduce`, `CanvasReducer.Reduce`: the states are values, so object identity is not modelled. In JavaScript the default case returns the very same object, and every other case returns a fresh spread copy. React's `Object.is` bail-out sees that difference. `r == state` in `Reduce` and the `Idempotent` lemmas are value equality only.
- Reducers: the `console` logging, and the dynamic typing of `payload`. Each action carries a payload of the field's type, and `Err` carries a message.
- `ParametricSurfaces.MapUniformLocations` takes the program's answers as a pure function `lookup`. It does not model the GL context or the program object. A missing uniform is an error, as in the code (mod.rs:93-96).
- `Macros.FmtMat`: the `f32` values and the nalgebra `as_ref` conversion are not modelled. Only the element layout is.
- The model/view/projection matrices (cube, triforce and torus modules), the torus sampling loop, shader compilation and linking, context acquisition, vertex-buffer upload, the `render` methods and the `buf_f32`/`buf_u16` macros are not modelled. They are float numerics in nalgebra or sequences of foreign WebGL and `js_sys` calls.
- The React components, animation loops, GLSL sources and webpack configuration are UI, timing and configuration.
