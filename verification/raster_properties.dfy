/** Properties relating several calls of the `image<T>` operations. */
module RasterProperties {
  import opened Geometry
  import opened Raster

  /** The two size constructors differ only in the logical bounds they store. */
  lemma SizeConstructorsDifferOnlyInBounds<T>(dims: Vec2i, bb: Box2f, zero: T)
    requires ValidDims(dims)
    ensures FromDimsBounds(dims, bb, zero) == FromDims(dims, zero).(bounds := GivenBounds(bb))
  {
  }

  /**
   * A copy of a freshly sized image does not have the original's float pixel
   * box: the original ends at `dims - 1`, the copy at `dims`.
   */
  lemma CopyMovesFloatPixelBox<T>(dims: Vec2i, zero: T)
    requires ValidDims(dims)
    ensures Copy(FromDims(dims, zero)).fpbounds.maxv == ToVec2f(dims)
    ensures Copy(FromDims(dims, zero)).fpbounds != FromDims(dims, zero).fpbounds
    ensures Copy(FromDims(dims, zero)) != FromDims(dims, zero)
  {
    var c := Copy(FromDims(dims, zero));
    assert c.fpbounds.maxv.x != FromDims(dims, zero).fpbounds.maxv.x;
  }

  /** A copy is identical to the original exactly when the original's float box was already derived from its integer box. */
  lemma CopyIsIdentityIff<T>(img: Image<T>)
    ensures Copy(img) == img <==> img.fpbounds == ToBox2f(img.ipbounds)
  {
  }

  /** Copying a copy changes nothing more: the copy constructor is idempotent. */
  lemma CopyIdempotent<T>(img: Image<T>)
    ensures Copy(Copy(img)) == Copy(img)
  {
  }

  /** Writing a pixel's own value back leaves the image unchanged. */
  lemma SetOwnValueIsIdentity<T>(img: Image<T>, i: nat)
    requires i < |img.base|
    ensures Set(img, i, Index(img, i)) == img
  {
  }

  /** A second write to the same pixel overrides the first. */
  lemma SetOverwrites<T>(img: Image<T>, i: nat, v: T, w: T)
    requires i < |img.base|
    ensures Set(Set(img, i, v), i, w) == Set(img, i, w)
  {
  }

  /** Writes to different pixels commute. */
  lemma SetCommutes<T>(img: Image<T>, i: nat, j: nat, v: T, w: T)
    requires i < |img.base| && j < |img.base| && i != j
    ensures Set(Set(img, i, v), j, w) == Set(Set(img, j, w), i, v)
  {
  }

  /** `compare_dims` is reflexive, symmetric and transitive across pixel types. */
  lemma CompareDimsIsEquivalence<T, U, V>(a: Image<T>, b: Image<U>, c: Image<V>)
    ensures CompareDims(a, a)
    ensures CompareDims(a, b) <==> CompareDims(b, a)
    ensures CompareDims(a, b) && CompareDims(b, c) ==> CompareDims(a, c)
  {
  }

  /** Copying and single-pixel writes never change what `compare_dims` sees. */
  lemma CompareDimsStable<T>(img: Image<T>, i: nat, v: T)
    requires i < |img.base|
    ensures CompareDims(Copy(img), img)
    ensures CompareDims(Set(img, i, v), img)
  {
  }

  /** The specialisation stubs change neither the receiver nor the fields they are handed. */
  lemma SpecializationStubsAreNoOps<T, U>(img: Image<T>, field: Image<U>, output: Image<U>,
                                          minc: real, maxc: real, relative: bool, extend: Extend, index: int)
    ensures Grayscale(img) == img
    ensures Clamp(img, minc, maxc) == img
    ensures Constrain(img) == img
    ensures FillFromField(img, field, relative, extend) == img
    ensures AdvectPixel(img, index, field, output) == (img, field)
    ensures Advect(img, field, output) == (img, field, output)
  {
  }
}
