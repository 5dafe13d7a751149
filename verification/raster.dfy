/**
 * The raster store `image<T>`: dimensions, a flat row-major pixel sequence,
 * three bounding boxes (logical, integer pixel, float pixel) and the three
 * mip-map flags, together with the operations whose bodies the class header
 * gives inline: the constructors, single-pixel `set`/`index`, `compare_dims`
 * and the no-op stubs that concrete pixel types specialise.
 */
module Raster {
  import opened Geometry

  /** Largest value of the source's 32-bit signed `int`. */
  const IntMax: int := 0x7fff_ffff

  /** Boundary-extension policy of the sampler (`image_extend`). */
  datatype Extend = SampSingle | SampRepeat | SampReflect

  /**
   * The logical-space box `bounds`, carried symbolically: the value built by
   * `bb2f`'s default constructor, the aspect-ratio box the size constructor
   * derives from the dimensions in float arithmetic, or a box given by the caller.
   */
  datatype LogicalBounds =
    | DefaultBounds
    | AspectBounds(aspectOf: Vec2i)
    | GivenBounds(box: Box2f)

  /** `image<T>` without its mip-map levels, whose contents are left abstract. */
  datatype Image<T> = Image(
    dim: Vec2i,
    base: seq<T>,
    bounds: LogicalBounds,
    ipbounds: Box2i,
    fpbounds: Box2f,
    mipMe: bool,
    mipped: bool,
    mipUtd: bool)

  /** Integer pixel box of an image of size `d`: from the origin to `d`. */
  function PixelBox(d: Vec2i): Box2i {
    Box2i(Origin, d)
  }

  /** Float pixel box of an image of size `d` as the size constructors set it: from the origin to `d - 1`. */
  function CentreBox(d: Vec2i): Box2f {
    Box2f(ToVec2f(Origin), MinusOne(d))
  }

  /** Sizes the size constructors accept: non-negative, with a pixel count that fits the source's `int`. */
  predicate ValidDims(d: Vec2i) {
    0 <= d.x && 0 <= d.y && d.x * d.y <= IntMax
  }

  /**
   * The storage invariant every constructed image keeps: one pixel per grid
   * cell, the integer pixel box spanning the grid, and the float pixel box
   * either ending at `dim - 1` (size constructors) or at `dim` (default and
   * copy constructors, which take it from the integer box).
   */
  predicate Valid<T>(img: Image<T>) {
    && 0 <= img.dim.x && 0 <= img.dim.y
    && |img.base| == img.dim.x * img.dim.y
    && img.ipbounds == PixelBox(img.dim)
    && (img.fpbounds == CentreBox(img.dim) || img.fpbounds == ToBox2f(img.ipbounds))
  }

  /** True when no mip-map flag is set, as every non-copying constructor leaves an image. */
  predicate MipFlagsClear<T>(img: Image<T>) {
    !img.mipMe && !img.mipped && !img.mipUtd
  }

  /**
   * `std::vector::resize(n)`: keeps the first `n` elements and, when growing,
   * appends value-initialised elements (`zero`).
   */
  function Resize<T>(s: seq<T>, n: nat, zero: T): (r: seq<T>)
    ensures |r| == n
    ensures forall k :: 0 <= k < n && k < |s| ==> r[k] == s[k]
    ensures forall k :: |s| <= k < n ==> r[k] == zero
    decreases n - |s|
  {
    if n <= |s| then s[..n] else Resize(s + [zero], n, zero)
  }

  /**
   * The copy loop of the copy constructor: every pixel of `src`, in order,
   * appended to an initially empty destination through a back-inserter.
   */
  method CopyPixels<T>(src: seq<T>) returns (dst: seq<T>)
    ensures dst == src
  {
    dst := [];
    var i := 0;
    while i < |src|
      invariant 0 <= i <= |src|
      invariant dst == src[..i]
    {
      dst := dst + [src[i]];
      i := i + 1;
    }
  }

  /** Default constructor: an empty 0x0 stub image. */
  function StubImage<T>(): (r: Image<T>)
    ensures r.dim == Origin && r.base == []
    ensures r.ipbounds == Box2i(Origin, Origin)
    ensures r.fpbounds == Box2f(Vec2f(0.0, 0.0), Vec2f(0.0, 0.0))
    ensures r.bounds == DefaultBounds
    ensures MipFlagsClear(r)
    ensures Valid(r)
  {
    var ip := Box2i(Origin, Origin);
    Image(Origin, [], DefaultBounds, ip, ToBox2f(ip), false, false, false)
  }

  /**
   * Size constructor `image( dims )`: `dims.x * dims.y` value-initialised
   * pixels, pixel boxes from the origin to `dims` (integer) and `dims - 1`
   * (float), aspect-ratio logical bounds, no mip-mapping.
   */
  function FromDims<T>(dims: Vec2i, zero: T): (r: Image<T>)
    requires ValidDims(dims)
    ensures r.dim == dims
    ensures |r.base| == dims.x * dims.y
    ensures forall k :: 0 <= k < |r.base| ==> r.base[k] == zero
    ensures r.ipbounds == Box2i(Vec2i(0, 0), dims)
    ensures r.fpbounds == Box2f(Vec2f(0.0, 0.0), Vec2f(dims.x as real - 1.0, dims.y as real - 1.0))
    ensures r.bounds == AspectBounds(dims)
    ensures MipFlagsClear(r)
    ensures Valid(r)
  {
    var ip := PixelBox(dims);
    Image(dims, Resize([], dims.x * dims.y, zero), AspectBounds(dims), ip,
          Box2f(ToVec2f(Origin), MinusOne(ip.maxv)), false, false, false)
  }

  /**
   * Size-and-bounds constructor `image( dims, bb )`: as the size constructor,
   * but the logical bounds are `bb`, stored unchanged.
   */
  function FromDimsBounds<T>(dims: Vec2i, bb: Box2f, zero: T): (r: Image<T>)
    requires ValidDims(dims)
    ensures r.dim == dims
    ensures |r.base| == dims.x * dims.y
    ensures forall k :: 0 <= k < |r.base| ==> r.base[k] == zero
    ensures r.ipbounds == Box2i(Vec2i(0, 0), dims)
    ensures r.fpbounds == Box2f(Vec2f(0.0, 0.0), Vec2f(dims.x as real - 1.0, dims.y as real - 1.0))
    ensures r.bounds == GivenBounds(bb)
    ensures MipFlagsClear(r)
    ensures Valid(r)
  {
    var ip := PixelBox(dims);
    Image(dims, Resize([], dims.x * dims.y, zero), GivenBounds(bb), ip,
          Box2f(ToVec2f(Origin), MinusOne(ip.maxv)), false, false, false)
  }

  /**
   * Copy constructor. Dimensions, logical and integer pixel boxes, pixels and
   * mip flags are copied; the float pixel box is rebuilt from the copied
   * integer box, so its upper corner is `dim` whatever the original held.
   * The pixels are the source's pixels in order because the constructor's
   * copy loop, `CopyPixels`, yields exactly its input sequence.
   */
  function Copy<T>(img: Image<T>): (r: Image<T>)
    ensures r.dim == img.dim && r.base == img.base && r.bounds == img.bounds
    ensures r.ipbounds == img.ipbounds
    ensures r.fpbounds == ToBox2f(img.ipbounds)
    ensures r.mipMe == img.mipMe && r.mipped == img.mipped && r.mipUtd == img.mipUtd
    ensures Valid(img) ==> Valid(r) && r.fpbounds.maxv == ToVec2f(img.dim)
  {
    Image(img.dim, img.base, img.bounds, img.ipbounds, ToBox2f(img.ipbounds),
          img.mipMe, img.mipped, img.mipUtd)
  }

  /**
   * Load constructor `image( filename )` for the generic pixel type: it
   * delegates to the default constructor and then to a `load` that only
   * prints, so the result is the empty stub whatever the file holds.
   */
  function LoadImage<T>(filename: string): (r: Image<T>)
    ensures r == StubImage()
    ensures r.dim == Origin && |r.base| == 0
    ensures MipFlagsClear(r)
    ensures Valid(r)
  {
    StubImage()
  }

  /** `index( i )`: the `i`-th pixel of the flat sequence. */
  function Index<T>(img: Image<T>, i: nat): (r: T)
    requires i < |img.base|
    ensures r == img.base[i]
    ensures r in img.base
  {
    img.base[i]
  }

  /**
   * `set( i, val )`: writes one pixel and nothing else; in particular the
   * mip flags, including `mip_utd`, are left as they were.
   */
  function Set<T>(img: Image<T>, i: nat, v: T): (r: Image<T>)
    requires i < |img.base|
    ensures |r.base| == |img.base|
    ensures Index(r, i) == v
    ensures forall j :: 0 <= j < |img.base| && j != i ==> Index(r, j) == Index(img, j)
    ensures r.dim == img.dim && r.bounds == img.bounds
    ensures r.ipbounds == img.ipbounds && r.fpbounds == img.fpbounds
    ensures r.mipMe == img.mipMe && r.mipped == img.mipped && r.mipUtd == img.mipUtd
    ensures Valid(img) ==> Valid(r)
  {
    img.(base := img.base[i := v])
  }

  /**
   * `compare_dims( img )`: whether two images, of possibly different pixel
   * types, have the same dimensions; for well-formed images this means the
   * same number of pixels.
   */
  function CompareDims<T, U>(a: Image<T>, b: Image<U>): (r: bool)
    ensures r <==> a.dim.x == b.dim.x && a.dim.y == b.dim.y
    ensures r && Valid(a) && Valid(b) ==> |a.base| == |b.base|
  {
    a.dim == b.dim
  }

  // Members that concrete pixel types specialise; for a generic pixel type
  // each one is an empty body.

  /** `grayscale()`. */
  function Grayscale<T>(img: Image<T>): (r: Image<T>)
    ensures r == img
  {
    img
  }

  /** `clamp( minc, maxc )`. */
  function Clamp<T>(img: Image<T>, minc: real, maxc: real): (r: Image<T>)
    ensures r == img
  {
    img
  }

  /** `constrain()`. */
  function Constrain<T>(img: Image<T>): (r: Image<T>)
    ensures r == img
  {
    img
  }

  /** `fill( vfield, relative, extend )`: fills a warp or offset field from a vector field. */
  function FillFromField<T, V>(img: Image<T>, vfield: Image<V>, relative: bool, extend: Extend): (r: Image<T>)
    ensures r == img
  {
    img
  }

  /**
   * `advect( index, in, out )`: `in` is passed by reference, `out` by value,
   * so only the receiver and `in` could change.
   */
  function AdvectPixel<T, U>(img: Image<T>, index: int, input: Image<U>, output: Image<U>): (r: (Image<T>, Image<U>))
    ensures r.0 == img && r.1 == input
  {
    (img, input)
  }

  /** `advect( in, out )`: both fields passed by reference. */
  function Advect<T, U>(img: Image<T>, input: Image<U>, output: Image<U>): (r: (Image<T>, Image<U>, Image<U>))
    ensures r.0 == img && r.1 == input && r.2 == output
  {
    (img, input, output)
  }
}
