# Lux raster store and double buffer, modelled in Dafny

This project models the executable core of `Lux/src/image.hpp`: the raster
template `image<T>` that backs every image and vector field in the Lux
generative-art renderer, and `buffer_pair<T>`, the primary/scratch image pair
used for feedback effects.

- `geometry.dfy` (module `Geometry`): stand-ins for `vec2i`, `vec2f`, `bb2i`
  and `bb2f`. Single-precision floats are modelled as exact reals.
- `wrappers.dfy` (module `Wrappers`): `Option`, standing for an owning pointer
  that may be null.
- `raster.dfy` (module `Raster`): `image<T>` as an immutable record. It holds
  the dimensions `dim`, the flat row-major pixel sequence `base` and the logical
  box `bounds`. It also holds the integer pixel box `ipbounds`, the float pixel
  box `fpbounds` and the mip flags `mip_me`, `mipped` and `mip_utd`. The record
  comes with the five constructors (default, size, size and bounds, copy and
  filename), single-pixel `set`/`index`, `compare_dims`
  and the specialisation stubs. `Valid` is the storage invariant: one pixel per
  grid cell, `ipbounds` from the origin to `dim`, and `fpbounds` from the origin
  to `dim - 1` or to `dim`. The size constructors produce the first form of
  `fpbounds`; the default and copy constructors produce the second, because they
  build `fpbounds` from `ipbounds`.
- `raster_properties.dfy` (module `RasterProperties`): lemmas that relate
  several image operations.
- `buffer_pair.dfy` (module `BufferPairs`): `buffer_pair<T>` as two `Option`
  slots, with one pure transition function per member. The member `has_image`
  is `HasImage`, and `get_image` and `operator()` are `GetImage`. Where the
  source dereferences a pointer it has not tested, the model makes that pointer
  non-null a precondition.
- `buffer_pair_properties.dfy` (module `BufferPairProperties`): lemmas that
  relate several calls. The module also has a runner for call sequences,
  `Step`/`Run`, which returns `None` at the first null dereference or
  out-of-range pixel write. `RunPreservesValid` proves that any sequence of
  defined calls keeps both slots well-formed.

The value of a value-initialised pixel (`T()`) is passed as a `zero`
parameter. The pixel type stays opaque.

Two behaviours of the code are worth stating up front:
- The float pixel box ends at `dim - 1` only for the size constructors. The
  default and copy constructors build it from `ipbounds`, so it ends at `dim`.
- `set(img)`, `set(bp)` and `set(dim)` test for a null primary the wrong way
  round (see Findings).

## Model

| member | source | states |
|---|---|---|
| Raster.Resize | Lux/src/image.hpp:72 | growing a pixel vector to `n` keeps the existing pixels in order and fills the new cells with the value-initialised pixel; the result has exactly `n` pixels |
| Raster.CopyPixels | Lux/src/image.hpp:81 | appending each source pixel in order to an empty destination yields exactly the source pixel sequence |
| Raster.StubImage | Lux/src/image.hpp:66-67 | the default image is a 0x0 stub with no pixels, both pixel boxes collapsed to the origin, default logical bounds and every mip flag false; it is well-formed |
| Raster.FromDims | Lux/src/image.hpp:70-72 | a sized image has `dims.x*dims.y` pixels, all value-initialised, `ipbounds` from the origin to `dims`, `fpbounds` from the origin to `dims - 1`, aspect-ratio logical bounds and no mip flag set; it is well-formed |
| Raster.FromDimsBounds | Lux/src/image.hpp:74-75 | the same as the size constructor, but the caller's box is stored unchanged as the logical bounds |
| Raster.Copy | Lux/src/image.hpp:78-83 | a copy has the original's dimensions, pixels, logical and integer boxes and all three mip flags; its float box is the integer box converted to float, so it ends at `dim`; copying a well-formed image gives a well-formed image |
| Raster.LoadImage | Lux/src/image.hpp:86 | for a generic pixel type, the load constructor yields the empty well-formed stub with mip flags clear, because the generic `load` only prints |
| Raster.Index | Lux/src/image.hpp:111 | `index(i)` reads the `i`-th pixel of the flat row-major sequence, which must be in range |
| Raster.Grayscale | Lux/src/image.hpp:135 | the generic `grayscale()` leaves the image unchanged |
| Raster.Clamp | Lux/src/image.hpp:136 | the generic `clamp(minc, maxc)` leaves the image unchanged for any bounds |
| Raster.Constrain | Lux/src/image.hpp:137 | the generic `constrain()` leaves the image unchanged |
| Raster.FillFromField | Lux/src/image.hpp:139 | the generic field `fill(vfield, relative, extend)` leaves the receiver unchanged |
| Raster.AdvectPixel | Lux/src/image.hpp:140 | the generic one-pixel `advect` leaves the receiver and the by-reference input field unchanged; the output field is a by-value copy |
| Raster.Advect | Lux/src/image.hpp:141 | the generic whole-image `advect` leaves the receiver and both fields unchanged |
| Raster.Set | Lux/src/image.hpp:109 | after `set(i, v)`, `index(i)` is `v`, every other pixel keeps its value, and the dimensions, all boxes and all mip flags (including `mip_utd`) are unchanged; well-formedness is kept |
| Raster.CompareDims | Lux/src/image.hpp:106 | true exactly when both dimensions agree, whatever the two pixel types; two well-formed images that compare equal have the same pixel count |
| RasterProperties.SizeConstructorsDifferOnlyInBounds | Lux/src/image.hpp:70-75 | the two size constructors build the same image except for the logical bounds |
| RasterProperties.CopyMovesFloatPixelBox | Lux/src/image.hpp:78 | copying a freshly sized image moves the float box's upper corner from `dims - 1` to `dims`, so the copy differs from the original |
| RasterProperties.CopyIsIdentityIff | Lux/src/image.hpp:78-83 | a copy equals the original exactly when the original's float box is its integer box converted to float |
| RasterProperties.CopyIdempotent | Lux/src/image.hpp:78-83 | copying a copy gives the same image as copying once |
| RasterProperties.SetOwnValueIsIdentity | Lux/src/image.hpp:109-111 | writing back the value `index(i)` returns leaves the image unchanged |
| RasterProperties.SetOverwrites | Lux/src/image.hpp:109 | a second `set` of the same pixel overrides the first |
| RasterProperties.SetCommutes | Lux/src/image.hpp:109 | `set`s of two different pixels give the same image in either order |
| RasterProperties.CompareDimsIsEquivalence | Lux/src/image.hpp:106 | `compare_dims` is reflexive, symmetric and transitive across pixel types |
| RasterProperties.CompareDimsStable | Lux/src/image.hpp:106 | neither copying nor a pixel write changes an image's dimensions as `compare_dims` sees them |
| RasterProperties.SpecializationStubsAreNoOps | Lux/src/image.hpp:135-141 | `grayscale`, `clamp`, `constrain`, the field `fill` and both `advect` overloads change neither the receiver nor the fields passed to them |
| BufferPairs.Empty | Lux/src/image.hpp:273 | the default pair has no primary and no scratch image |
| BufferPairs.HasImage | Lux/src/image.hpp:225 | `has_image()` is true exactly when the primary slot is not null |
| BufferPairs.GetImage | Lux/src/image.hpp:227-230 | `get_image()` (and `operator()`, line 271) returns the primary object, which must exist because it is dereferenced unchecked |
| BufferPairs.GetBuffer | Lux/src/image.hpp:234-237 | an existing scratch image is returned with the pair unchanged; otherwise the scratch slot is filled with a copy of the primary, which must exist; the primary slot never changes, and the slots stay well-formed |
| BufferPairs.Swap | Lux/src/image.hpp:239 | the new primary is the old scratch and the new scratch is the old primary; no image is copied or rebuilt, so `has_image()` afterwards reports whether a scratch image existed and well-formed slots stay well-formed |
| BufferPairs.Load | Lux/src/image.hpp:241-244 | `load` installs the generic load constructor's empty stub as primary and empties the scratch slot |
| BufferPairs.Reset | Lux/src/image.hpp:246-249 | `reset(img)` installs a copy of `img` as primary and empties the scratch slot; a well-formed `img` gives well-formed slots |
| BufferPairs.ResetDim | Lux/src/image.hpp:251-254 | `reset(dim)` installs a freshly sized image as primary and empties the scratch slot |
| BufferPairs.Set | Lux/src/image.hpp:256-259 | with a primary present, `set(img)` is exactly `reset(img)`; an absent primary is dereferenced, so a primary is required |
| BufferPairs.SetFrom | Lux/src/image.hpp:261-264 | `set(bp)` has the same inverted null test, so the receiver's primary is required; it is then `set` applied to the other pair's primary, which must also exist |
| BufferPairs.SetDim | Lux/src/image.hpp:266-269 | with a primary present, `set(dim)` is exactly `reset(dim)`; a primary is required |
| BufferPairs.FromFile | Lux/src/image.hpp:274 | the filename constructor is `load` on an empty pair: a primary and no scratch |
| BufferPairs.FromImage | Lux/src/image.hpp:275 | the image constructor is `reset(img)` on an empty pair |
| BufferPairs.FromDim | Lux/src/image.hpp:276 | the dimension constructor leaves a freshly sized primary and no scratch, the same as `reset(dim)` on an empty pair |
| BufferPairs.SetIntended | Lux/src/image.hpp:256-259 | with the null test the right way round, `set(img)` is total; afterwards the primary is a copy of `img`, an existing scratch image is kept, and an empty pair behaves like `reset(img)` |
| BufferPairProperties.SwapInvolution | Lux/src/image.hpp:239 | swapping twice restores both slots |
| BufferPairProperties.SwapHasImage | Lux/src/image.hpp:225-239 | after a swap, `has_image()` is true exactly when the scratch slot was filled before it |
| BufferPairProperties.SwapTimesParity | Lux/src/image.hpp:239 | an even number of swaps changes nothing; an odd number equals one swap |
| BufferPairProperties.GetBufferIdempotent | Lux/src/image.hpp:234-237 | a second `get_buffer` returns the same scratch image and leaves the pair as the first left it |
| BufferPairProperties.GetBufferCopiesPrimary | Lux/src/image.hpp:235 | a freshly created scratch image has the primary's dimensions, pixels and integer box |
| BufferPairProperties.GetBufferThenSwap | Lux/src/image.hpp:234-239 | `get_buffer` then `swap` makes the copy the primary and the old primary the scratch |
| BufferPairProperties.ReplacementDropsScratch | Lux/src/image.hpp:241-276 | `load`, both `reset`s and the image and dimension constructors leave a primary and no scratch; the default constructor leaves neither |
| BufferPairProperties.SetOnEmptyPair | Lux/src/image.hpp:256-258 | on the default pair, `set(img)` as written cannot run because there is no primary; the corrected form installs a copy of `img`, as `reset` would |
| BufferPairProperties.SetDiffersFromIntended | Lux/src/image.hpp:256-259 | when both slots are filled, `set` as written and the corrected form install the same primary but differ in the scratch slot |
| BufferPairProperties.StepPreservesValid | Lux/src/image.hpp:225-269 | every defined `buffer_pair` call keeps both slots well-formed: `get_buffer`, `swap`, `load`, both `reset`s, all three `set`s (`set(bp)` with a well-formed other pair), and a pixel write through `get_image` or `get_buffer` |
| BufferPairProperties.RunPreservesValid | Lux/src/image.hpp:221-276 | every sequence of defined `buffer_pair` calls keeps both slots well-formed |
| BufferPairProperties.ResetEnablesSet | Lux/src/image.hpp:246-259 | after `reset(img)`, the sequence `set`, `get_buffer`, `swap` runs without a null dereference |

## Left out

- Operations that the header only declares are out, because their bodies are not part of this model. These are `index(vi, extend)`, `sample`, `sample_tile`, `mip_it`, `de_mip`, `use_mip`, `reset()`, `get_dim`/`set_dim`, the bounds getters and setters, `resize`, `crop`, `crop_circle`, `copy`, `fill`, `clear`, `noise`, `apply_mask`, `splat`, the four `warp`s, `apply`, the arithmetic operators, `read_binary`, `write_binary` and `write_file`.
- Raster.CompareDims: it takes `get_dim()` to return `dim`; the body of `get_dim` is not part of this model.
- Raster.Copy: the copy constructor's call to `mip_it()` is not modelled, so pyramid levels are abstract and the mip flags are only the ones the constructor copies.
- Raster.FromDims: the logical `bounds` is carried symbolically as `AspectBounds(dims)`. The float aspect-ratio arithmetic behind it is not modelled, and that arithmetic divides by zero when `dims.x` is 0.
- Raster.FromDims: the model excludes sizes with a negative component and sizes whose pixel count does not fit a 32-bit `int`. The source does not check either. With two negative components, such as `(-1, -1)`, it builds an image with a positive pixel count and an inverted integer box, and that case is not modelled. A product that overflows `int` is undefined behaviour.
- Raster.FromDimsBounds: it has the same dimension precondition as `FromDims`.
- Raster.Set: the index is a `nat` below the pixel count; writing out of range is undefined in the source, so the model requires the index to be in range.
- Float precision: the model uses exact reals, so `fpbounds` is exact even for dimensions above 2^24.
- Console output is not modelled. This covers the trace line in `get_image` and the generic `load`, `write_jpg` and `write_png`, which only print.
- The JPEG and PNG `load` overrides for concrete pixel types are not part of this model.
- Raw-pointer and iterator access is not modelled: `get_base`, `begin`/`end` and `get_image_ptr` expose memory aliasing, not behaviour.
- BufferPairs.SetDim: it has the same inverted null test as `set(img)`. It is modelled as written only, because the corrected branch would call `clear()`, whose body is not part of this model.
- BufferPairs.SetFrom: the source calls the non-const `get_image` on a const argument; the model reads the other pair's primary directly.
- BufferPairs.SetIntended: it takes `image::copy(img)` to give the primary the same content as the copy constructor; the body of `copy` is not part of this model.

## Findings

| source | as written | input that shows it | evidently intended | confidence | as-written member | corrected member |
|---|---|---|---|---|---|---|
| Lux/src/image.hpp:257-267 | `set(img)` (line 257) dereferences the primary exactly when it is null, and replaces an existing primary through `reset(img)`; `set(bp)` (line 262) and `set(dim)` (line 267) carry the same inverted test | a default-constructed `buffer_pair`, followed by `set(img)` | create the primary through `reset(img)` when it is absent; copy `img` into the existing primary otherwise | high that the test is inverted; medium for the corrected branch, which relies on `image::copy`; not executed | BufferPairs.Set, BufferPairProperties.SetOnEmptyPair | BufferPairs.SetIntended |
