/**
 * `buffer_pair<T>`: a primary image and a lazily created scratch image, each
 * held through an owning pointer. A null pointer is `None`. Every operation is
 * a pure transition from one pair to the next; where the source dereferences a
 * pointer it has not checked, the model requires that pointer to be non-null.
 */
module BufferPairs {
  import opened Wrappers
  import opened Geometry
  import opened Raster

  /** The two owned slots: `first` is the primary, `second` the scratch. */
  datatype BufferPair<T> = BufferPair(first: Option<Image<T>>, second: Option<Image<T>>)

  /** Every image the pair owns satisfies the storage invariant. */
  predicate SlotsValid<T>(bp: BufferPair<T>) {
    && (bp.first.Some? ==> Valid(bp.first.value))
    && (bp.second.Some? ==> Valid(bp.second.value))
  }

  /** Default constructor: both slots null. */
  function Empty<T>(): (r: BufferPair<T>)
    ensures !r.first.Some? && !r.second.Some?
  {
    BufferPair(None, None)
  }

  /** `has_image()`: whether a primary exists. */
  function HasImage<T>(bp: BufferPair<T>): (r: bool)
    ensures r <==> bp.first != None
  {
    bp.first.Some?
  }

  /** `get_image()` (and `operator()`): the primary; it dereferences the primary unchecked. */
  function GetImage<T>(bp: BufferPair<T>): (r: Image<T>)
    requires HasImage(bp)
    ensures bp.first == Some(r)
  {
    bp.first.value
  }

  /**
   * `get_buffer()`: the scratch image, created on first use as a copy of the
   * primary. Returns the new pair and the scratch image. The primary is only
   * dereferenced when the scratch slot is empty.
   */
  function GetBuffer<T>(bp: BufferPair<T>): (r: (BufferPair<T>, Image<T>))
    requires bp.second.Some? || bp.first.Some?
    ensures r.0.first == bp.first
    ensures r.0.second == Some(r.1)
    ensures bp.second.Some? ==> r.0 == bp
    ensures bp.second.None? ==> r.1 == Copy(bp.first.value)
    ensures SlotsValid(bp) ==> SlotsValid(r.0)
  {
    match bp.second
    case Some(buf) => (bp, buf)
    case None =>
      var buf := Copy(bp.first.value);
      (bp.(second := Some(buf)), buf)
  }

  /** `swap()`: exchanges the two owning pointers; no image is copied. */
  function Swap<T>(bp: BufferPair<T>): (r: BufferPair<T>)
    ensures r.first == bp.second && r.second == bp.first
    ensures HasImage(r) <==> bp.second.Some?
    ensures SlotsValid(bp) ==> SlotsValid(r)
  {
    BufferPair(bp.second, bp.first)
  }

  /**
   * `load( filename )`: a new primary built by the load constructor (for a
   * generic pixel type, the empty stub); the scratch slot is dropped.
   */
  function Load<T>(bp: BufferPair<T>, filename: string): (r: BufferPair<T>)
    ensures r.first == Some(LoadImage(filename))
    ensures r.first.Some? && r.first.value.dim == Origin && |r.first.value.base| == 0
    ensures r.second == None
    ensures SlotsValid(r)
  {
    BufferPair(Some(LoadImage(filename)), None)
  }

  /** `reset( img )`: a new primary copied from `img`; the scratch slot is dropped. */
  function Reset<T>(bp: BufferPair<T>, img: Image<T>): (r: BufferPair<T>)
    ensures r.first == Some(Copy(img))
    ensures r.second == None
    ensures Valid(img) ==> SlotsValid(r)
  {
    BufferPair(Some(Copy(img)), None)
  }

  /** `reset( dim )`: a new primary of size `dims`; the scratch slot is dropped. */
  function ResetDim<T>(bp: BufferPair<T>, dims: Vec2i, zero: T): (r: BufferPair<T>)
    requires ValidDims(dims)
    ensures r.first == Some(FromDims(dims, zero))
    ensures r.second == None
    ensures SlotsValid(r)
  {
    BufferPair(Some(FromDims(dims, zero)), None)
  }

  /**
   * `set( img )` as written: the null test is inverted, so an absent primary
   * is dereferenced and a present one is replaced through `reset( img )`.
   */
  function Set<T>(bp: BufferPair<T>, img: Image<T>): (r: BufferPair<T>)
    requires HasImage(bp)
    ensures r == Reset(bp, img)
    ensures r.first == Some(Copy(img)) && r.second == None
  {
    Reset(bp, img)
  }

  /**
   * `set( bp )` as written: the same inverted null test as `set( img )`, so
   * the receiver's primary is required; with it present this is `set`
   * applied to the other pair's primary, which `get_image` dereferences.
   */
  function SetFrom<T>(bp: BufferPair<T>, other: BufferPair<T>): (r: BufferPair<T>)
    requires HasImage(bp) && HasImage(other)
    ensures r == Set(bp, GetImage(other))
    ensures r.first == Some(Copy(other.first.value)) && r.second == None
  {
    Set(bp, GetImage(other))
  }

  /**
   * `set( dim )` as written: the same inverted null test; with a primary
   * present it behaves as `reset( dim )`.
   */
  function SetDim<T>(bp: BufferPair<T>, dims: Vec2i, zero: T): (r: BufferPair<T>)
    requires HasImage(bp) && ValidDims(dims)
    ensures r == ResetDim(bp, dims, zero)
    ensures r.first == Some(FromDims(dims, zero)) && r.second == None
  {
    ResetDim(bp, dims, zero)
  }

  /** `buffer_pair( filename )`. */
  function FromFile<T>(filename: string): (r: BufferPair<T>)
    ensures r == Load(Empty(), filename)
    ensures HasImage(r) && r.second == None
  {
    Load(Empty(), filename)
  }

  /** `buffer_pair( img )`: the image is copied into a new primary. */
  function FromImage<T>(img: Image<T>): (r: BufferPair<T>)
    ensures r == Reset(Empty(), img)
    ensures r.first == Some(Copy(img)) && r.second == None
  {
    Reset(Empty(), img)
  }

  /** `buffer_pair( dim )`: a new primary of size `dims` and an empty scratch slot. */
  function FromDim<T>(dims: Vec2i, zero: T): (r: BufferPair<T>)
    requires ValidDims(dims)
    ensures r == ResetDim(Empty(), dims, zero)
    ensures r.first == Some(FromDims(dims, zero)) && r.second == None
  {
    BufferPair(Some(FromDims(dims, zero)), None)
  }

  /**
   * `set( img )` with the null test the way round its else-branch implies:
   * an existing primary receives a copy of `img` (modelled as the copy
   * constructor's result, leaving the scratch slot alone), and a missing
   * one is created through `reset( img )`.
   */
  function SetIntended<T>(bp: BufferPair<T>, img: Image<T>): (r: BufferPair<T>)
    ensures HasImage(r) && GetImage(r) == Copy(img)
    ensures HasImage(bp) ==> r.second == bp.second
    ensures !HasImage(bp) ==> r == Reset(bp, img)
    ensures Valid(img) && SlotsValid(bp) ==> SlotsValid(r)
  {
    if bp.first.Some? then bp.(first := Some(Copy(img))) else Reset(bp, img)
  }
}
