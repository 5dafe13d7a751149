/**
 * Properties of `buffer_pair<T>` that relate several calls, and a runner for
 * sequences of calls on which the storage invariant is proved to hold
 * throughout.
 */
module BufferPairProperties {
  import opened Wrappers
  import opened Geometry
  import opened Raster
  import opened BufferPairs

  /** Swapping twice restores both slots. */
  lemma SwapInvolution<T>(bp: BufferPair<T>)
    ensures Swap(Swap(bp)) == bp
  {
  }

  /** After a swap a primary exists exactly when the scratch slot was filled before it. */
  lemma SwapHasImage<T>(bp: BufferPair<T>)
    ensures HasImage(Swap(bp)) <==> bp.second.Some?
  {
  }

  /** `n` swaps in a row. */
  function SwapTimes<T>(bp: BufferPair<T>, n: nat): BufferPair<T>
    decreases n
  {
    if n == 0 then bp else Swap(SwapTimes(bp, n - 1))
  }

  /** An even number of swaps is no change; an odd number is a single swap. */
  lemma {:induction false} SwapTimesParity<T>(bp: BufferPair<T>, n: nat)
    ensures SwapTimes(bp, n) == if n % 2 == 0 then bp else Swap(bp)
    decreases n
  {
    if n > 0 {
      SwapTimesParity(bp, n - 1);
      SwapInvolution(bp);
    }
  }

  /** Once created, the scratch image is handed out unchanged: `get_buffer` is idempotent. */
  lemma GetBufferIdempotent<T>(bp: BufferPair<T>)
    requires bp.second.Some? || bp.first.Some?
    ensures GetBuffer(GetBuffer(bp).0) == GetBuffer(bp)
  {
  }

  /** A freshly created scratch image matches the primary's pixels, dimensions and pixel boxes. */
  lemma GetBufferCopiesPrimary<T>(bp: BufferPair<T>)
    requires bp.first.Some? && bp.second.None? && Valid(bp.first.value)
    ensures CompareDims(GetBuffer(bp).1, GetImage(bp))
    ensures GetBuffer(bp).1.base == GetImage(bp).base
    ensures GetBuffer(bp).1.ipbounds == GetImage(bp).ipbounds
  {
  }

  /**
   * The double-buffering cycle: take the scratch, swap, and the old primary
   * is now the scratch while its copy is the primary.
   */
  lemma GetBufferThenSwap<T>(bp: BufferPair<T>)
    requires bp.first.Some? && bp.second.None?
    ensures HasImage(Swap(GetBuffer(bp).0))
    ensures GetImage(Swap(GetBuffer(bp).0)) == Copy(GetImage(bp))
    ensures Swap(GetBuffer(bp).0).second == bp.first
  {
  }

  /** Every replacement of the primary leaves the scratch slot empty, whatever it held. */
  lemma ReplacementDropsScratch<T>(bp: BufferPair<T>, img: Image<T>, filename: string, dims: Vec2i, zero: T)
    requires ValidDims(dims)
    ensures Load(bp, filename).second == None && HasImage(Load(bp, filename))
    ensures Reset(bp, img).second == None && HasImage(Reset(bp, img))
    ensures ResetDim(bp, dims, zero).second == None && HasImage(ResetDim(bp, dims, zero))
    ensures !HasImage(Empty<T>()) && Empty<T>().second == None
    ensures HasImage(FromImage(img)) && FromImage(img).second == None
    ensures HasImage(FromDim(dims, zero)) && FromDim(dims, zero).second == None
  {
  }

  /** `set( img )` on an empty pair dereferences null; the corrected form installs the copy. */
  lemma SetOnEmptyPair<T>(img: Image<T>)
    ensures !HasImage(Empty<T>())
    ensures SetIntended(Empty<T>(), img) == Reset(Empty<T>(), img)
  {
  }

  /** The corrected `set( img )` with a primary present keeps the scratch slot that `set` as written drops. */
  lemma SetDiffersFromIntended<T>(bp: BufferPair<T>, img: Image<T>)
    requires HasImage(bp) && bp.second.Some?
    ensures BufferPairs.Set(bp, img) != SetIntended(bp, img)
    ensures GetImage(BufferPairs.Set(bp, img)) == GetImage(SetIntended(bp, img))
  {
  }

  /** One call made on a buffer pair, with its arguments. */
  datatype Op<T> =
    | GetBufferOp
    | SwapOp
    | LoadOp(filename: string)
    | ResetOp(img: Image<T>)
    | ResetDimOp(dims: Vec2i)
    | SetOp(img: Image<T>)
    | SetFromOp(other: BufferPair<T>)
    | SetDimOp(dims: Vec2i)
    | SetPixelOp(i: nat, v: T)        // get_image().set( i, v )
    | SetBufferPixelOp(i: nat, v: T)  // get_buffer().set( i, v )

  /** Arguments the source's constructors accept: well-formed images and representable sizes. */
  predicate ArgsValid<T>(op: Op<T>) {
    match op
    case ResetOp(img) => Valid(img)
    case SetOp(img) => Valid(img)
    case SetFromOp(other) => SlotsValid(other)
    case ResetDimOp(dims) => ValidDims(dims)
    case SetDimOp(dims) => ValidDims(dims)
    case _ => true
  }

  /**
   * One call: `None` when the call would dereference a null slot or write a
   * pixel past the end of the pixel sequence; otherwise the new pair.
   */
  function Step<T>(bp: BufferPair<T>, op: Op<T>, zero: T): (r: Option<BufferPair<T>>)
    requires ArgsValid(op)
  {
    match op
    case GetBufferOp =>
      if bp.first.Some? || bp.second.Some? then Some(GetBuffer(bp).0) else None
    case SwapOp => Some(Swap(bp))
    case LoadOp(filename) => Some(Load(bp, filename))
    case ResetOp(img) => Some(Reset(bp, img))
    case ResetDimOp(dims) => Some(ResetDim(bp, dims, zero))
    case SetOp(img) => if HasImage(bp) then Some(BufferPairs.Set(bp, img)) else None
    case SetFromOp(other) => if HasImage(bp) && HasImage(other) then Some(SetFrom(bp, other)) else None
    case SetDimOp(dims) => if HasImage(bp) then Some(SetDim(bp, dims, zero)) else None
    case SetPixelOp(i, v) =>
      if HasImage(bp) && i < |GetImage(bp).base|
      then Some(bp.(first := Some(Raster.Set(GetImage(bp), i, v))))
      else None
    case SetBufferPixelOp(i, v) =>
      if bp.first.Some? || bp.second.Some? then
        var (bp', buf) := GetBuffer(bp);
        if i < |buf.base| then Some(bp'.(second := Some(Raster.Set(buf, i, v)))) else None
      else None
  }

  /** A sequence of calls, stopping with `None` at the first one that would be undefined. */
  function Run<T>(bp: BufferPair<T>, ops: seq<Op<T>>, zero: T): Option<BufferPair<T>>
    requires forall k :: 0 <= k < |ops| ==> ArgsValid(ops[k])
    decreases |ops|
  {
    if |ops| == 0 then Some(bp)
    else match Step(bp, ops[0], zero)
      case None => None
      case Some(next) => Run(next, ops[1..], zero)
  }

  /** Every defined call keeps every owned image well-formed. */
  lemma StepPreservesValid<T>(bp: BufferPair<T>, op: Op<T>, zero: T)
    requires ArgsValid(op) && SlotsValid(bp)
    ensures Step(bp, op, zero).Some? ==> SlotsValid(Step(bp, op, zero).value)
  {
  }

  /**
   * Whatever sequence of calls is made, as long as none of them is undefined,
   * both slots hold only well-formed images afterwards.
   */
  lemma {:induction false} RunPreservesValid<T>(bp: BufferPair<T>, ops: seq<Op<T>>, zero: T)
    requires forall k :: 0 <= k < |ops| ==> ArgsValid(ops[k])
    requires SlotsValid(bp)
    ensures Run(bp, ops, zero).Some? ==> SlotsValid(Run(bp, ops, zero).value)
    decreases |ops|
  {
    if |ops| > 0 {
      StepPreservesValid(bp, ops[0], zero);
      match Step(bp, ops[0], zero)
      case None =>
      case Some(next) =>
        assert forall k :: 0 <= k < |ops[1..]| ==> ArgsValid(ops[1..][k]);
        RunPreservesValid(next, ops[1..], zero);
    }
  }

  /** Once a primary is installed, `set`, `get_buffer` and `swap` can follow it without dereferencing null. */
  lemma ResetEnablesSet<T>(bp: BufferPair<T>, img: Image<T>, other: Image<T>, zero: T)
    requires Valid(img) && Valid(other)
    ensures Run(bp, [ResetOp(img), SetOp(other), GetBufferOp, SwapOp], zero).Some?
  {
    var ops: seq<Op<T>> := [ResetOp(img), SetOp(other), GetBufferOp, SwapOp];
    var s1 := Reset(bp, img);
    var s2 := BufferPairs.Set(s1, other);
    var s3 := GetBuffer(s2).0;
    assert Run(s3, ops[3..], zero) == Run(Swap(s3), [], zero);
    assert Run(s2, ops[2..], zero) == Run(s3, ops[3..], zero);
    assert Run(s1, ops[1..], zero) == Run(s2, ops[2..], zero);
    assert Run(bp, ops, zero) == Run(s1, ops[1..], zero);
  }
}
