/** Layout arithmetic of a tensor (src/core/tensor.cc): the row-major
    stride of a shape, the validity of a shape/stride pair, and the number
    of elements the storage behind a strided view spans. */
module TensorLayout {
  import opened Wrappers

  /** Dimension sizes are unsigned (`size_t`). */
  type ShapeElem = nat
  /** Strides are signed (`ptrdiff_t`): zero broadcasts a dimension and a
      negative stride walks it backwards. */
  type StrideElem = int
  type Shape = seq<ShapeElem>
  type Stride = seq<StrideElem>

  /** A multi-index into a tensor, one coordinate per dimension. */
  type Index = seq<nat>

  predicate AllPositive(shape: Shape) {
    forall i :: 0 <= i < |shape| ==> shape[i] > 0
  }

  /** What a constructed tensor satisfies: one stride per dimension and no
      empty dimension. */
  predicate ValidLayout(shape: Shape, stride: Stride) {
    |shape| == |stride| && AllPositive(shape)
  }

  /** The failure `checkValid` reports through its assertions. */
  datatype LayoutError = InvalidLayout

  function Abs(x: int): nat {
    if x < 0 then -x else x
  }

  /** Number of elements of a shape; 1 for a scalar. */
  function Product(shape: Shape): nat {
    if |shape| == 0 then 1 else shape[0] * Product(shape[1..])
  }

  lemma MulPositive(a: nat, b: nat)
    ensures a * b > 0 <==> a > 0 && b > 0
  {
    if a > 0 && b > 0 {
      assert a * b >= b by { MulMonotone(1, a, b); }
    }
  }

  lemma MulPredecessor(a: int, b: int)
    ensures (a - 1) * b == a * b - b
  {
  }

  lemma MulMonotone(a: int, b: int, c: int)
    requires a <= b && c >= 0
    ensures a * c <= b * c
  {
  }

  /** The element count is positive exactly when no dimension is empty. */
  lemma {:induction false} ProductPositive(shape: Shape)
    ensures Product(shape) > 0 <==> AllPositive(shape)
  {
    if |shape| > 0 {
      ProductPositive(shape[1..]);
      MulPositive(shape[0], Product(shape[1..]));
      assert AllPositive(shape[1..]) && shape[0] > 0 ==> AllPositive(shape) by {
        if AllPositive(shape[1..]) && shape[0] > 0 {
          forall i | 0 < i < |shape| ensures shape[i] > 0 {
            assert shape[i] == shape[1..][i - 1];
          }
        }
      }
    }
  }

  /** The row-major (contiguous) stride of a shape: the stride of a
      dimension is the number of elements of all dimensions after it. */
  function ContiguousStride(shape: Shape): (r: Stride)
    ensures |r| == |shape|
    ensures forall i :: 0 <= i < |shape| ==> r[i] == Product(shape[i + 1..])
  {
    if |shape| == 0 then []
    else
      var rest := ContiguousStride(shape[1..]);
      assert forall i :: 0 < i < |shape| ==> shape[1..][i..] == shape[i + 1..];
      [Product(shape[1..])] + rest
  }

  /** The recurrence the stride loop follows: the last stride is 1 and
      each earlier stride is the next stride times the next dimension. */
  lemma ContiguousStrideRecurrence(shape: Shape)
    ensures var r := ContiguousStride(shape);
      && (|shape| > 0 ==> r[|shape| - 1] == 1)
      && forall i :: 0 < i < |shape| ==> r[i - 1] == r[i] * shape[i]
  {
    var r := ContiguousStride(shape);
    if |shape| > 0 {
      assert r[|shape| - 1] == Product(shape[|shape|..]);
      assert shape[|shape|..] == [];
    }
    forall i | 0 < i < |shape| ensures r[i - 1] == r[i] * shape[i] {
      var a, b := Product(shape[i..]), Product(shape[i + 1..]);
      assert r[i - 1] == a && r[i] == b;
      assert shape[i..][0] == shape[i] && shape[i..][1..] == shape[i + 1..];
      assert a == shape[i] * b;
    }
  }

  /** `computeContiguousStride`: fills a rank-sized buffer from the last
      dimension backwards, carrying the running product. */
  method ComputeContiguousStride(shape: Shape) returns (stride: Stride)
    ensures stride == ContiguousStride(shape)
  {
    var n := |shape|;
    var buffer := new StrideElem[n];
    var p: StrideElem := 1;
    var i := n;
    while i > 0
      invariant 0 <= i <= n
      invariant p == Product(shape[i..])
      invariant forall k :: i <= k < n ==> buffer[k] == Product(shape[k + 1..])
    {
      buffer[i - 1] := p;
      assert shape[i - 1..][1..] == shape[i..];
      p := p * shape[i - 1];
      i := i - 1;
    }
    stride := buffer[..];
  }

  /** `checkValid`: fails unless shape and stride have the same length and
      every dimension is positive; otherwise answers true. */
  method CheckValid(shape: Shape, stride: Stride) returns (r: Result<bool, LayoutError>)
    ensures ValidLayout(shape, stride) ==> r == Ok(true)
    ensures !ValidLayout(shape, stride) ==> r == Err(InvalidLayout)
  {
    if |shape| != |stride| {
      return Err(InvalidLayout);
    }
    var i := 0;
    while i < |shape|
      invariant 0 <= i <= |shape|
      invariant forall k :: 0 <= k < i ==> shape[k] > 0
    {
      if shape[i] == 0 {
        return Err(InvalidLayout);
      }
      i := i + 1;
    }
    return Ok(true);
  }

  /** Reference value: the sum over the first n dimensions of
      (size - 1) * |stride|, the distance between the lowest and the highest
      element those dimensions can address. */
  function Span(shape: Shape, stride: Stride, n: nat): (r: int)
    requires n <= |shape| && n <= |stride|
    ensures AllPositive(shape) ==> r >= 0
  {
    if n == 0 then 0
    else
      var term := (shape[n - 1] - 1) * Abs(stride[n - 1]);
      assert AllPositive(shape) ==> term >= 0 by {
        if AllPositive(shape) { MulMonotone(0, shape[n - 1] - 1, Abs(stride[n - 1])); }
      }
      Span(shape, stride, n - 1) + term
  }

  /** The `max_offset` accumulator after n dimensions: non-negative strides
      contribute (size - 1) * stride. */
  function MaxOffset(shape: Shape, stride: Stride, n: nat): int
    requires n <= |shape| && n <= |stride|
  {
    if n == 0 then 0
    else MaxOffset(shape, stride, n - 1)
         + (if stride[n - 1] >= 0 then (shape[n - 1] - 1) * stride[n - 1] else 0)
  }

  /** The `min_offset` accumulator after n dimensions: negative strides
      contribute (size - 1) * stride. */
  function MinOffset(shape: Shape, stride: Stride, n: nat): int
    requires n <= |shape| && n <= |stride|
  {
    if n == 0 then 0
    else MinOffset(shape, stride, n - 1)
         + (if stride[n - 1] < 0 then (shape[n - 1] - 1) * stride[n - 1] else 0)
  }

  /** The two accumulators telescope to the reference span, and with no
      empty dimension they straddle zero. */
  lemma {:induction false} OffsetsTelescope(shape: Shape, stride: Stride, n: nat)
    requires n <= |shape| && n <= |stride|
    ensures MaxOffset(shape, stride, n) - MinOffset(shape, stride, n) == Span(shape, stride, n)
    ensures AllPositive(shape) ==> MaxOffset(shape, stride, n) >= 0 >= MinOffset(shape, stride, n)
  {
    if n > 0 {
      OffsetsTelescope(shape, stride, n - 1);
      var e: int := shape[n - 1] as int - 1;
      var s := stride[n - 1];
      if s < 0 {
        assert e * s == -(e * Abs(s));
      }
      if AllPositive(shape) {
        if s >= 0 {
          MulMonotone(0, e, s);
        } else {
          MulMonotone(0, e, -s);
        }
      }
    }
  }

  /** The storage size as the runtime computes it: 1 for a scalar,
      otherwise `max_offset - min_offset`, which is the span. */
  function StorageSizeOf(shape: Shape, stride: Stride): (r: int)
    requires |shape| <= |stride|
    ensures AllPositive(shape) ==> r >= 0
  {
    if |shape| == 0 then 1 else Span(shape, stride, |shape|)
  }

  /** Over a contiguous stride the span of the first n dimensions is the
      element count minus that of the remaining dimensions. */
  lemma {:induction false} ContiguousSpan(shape: Shape, n: nat)
    requires n <= |shape|
    ensures Span(shape, ContiguousStride(shape), n) == Product(shape) - Product(shape[n..])
  {
    if n > 0 {
      ContiguousSpan(shape, n - 1);
      var stride := ContiguousStride(shape);
      var a: int, p: int := shape[n - 1], Product(shape[n..]);
      assert Abs(stride[n - 1]) == p;
      assert shape[n - 1..][1..] == shape[n..];
      assert Product(shape[n - 1..]) == a * p;
      MulPredecessor(a, p);
      assert Span(shape, stride, n) == Span(shape, stride, n - 1) + (a - 1) * p;
    }
  }

  /** For a contiguous, non-scalar tensor the storage size is one less than
      the element count (the code adds no final 1). */
  lemma ContiguousStorageSize(shape: Shape)
    requires |shape| > 0
    ensures StorageSizeOf(shape, ContiguousStride(shape)) == Product(shape) - 1
  {
    ContiguousSpan(shape, |shape|);
    assert shape[|shape|..] == [];
  }

  // Addressing: which element offsets a strided view reaches.

  /** A multi-index lies inside the shape. */
  predicate InBounds(idx: Index, shape: Shape) {
    |idx| == |shape| && forall i :: 0 <= i < |idx| ==> idx[i] < shape[i]
  }

  /** Element offset of a multi-index over its first n coordinates:
      the sum of idx[i] * stride[i]. */
  function Offset(idx: Index, stride: Stride, n: nat): int
    requires n <= |idx| && n <= |stride|
  {
    if n == 0 then 0 else Offset(idx, stride, n - 1) + idx[n - 1] * stride[n - 1]
  }

  /** Every in-bounds multi-index lands between the two accumulators. */
  lemma {:induction false} OffsetBetween(idx: Index, shape: Shape, stride: Stride, n: nat)
    requires InBounds(idx, shape) && |shape| <= |stride| && n <= |shape|
    ensures MinOffset(shape, stride, n) <= Offset(idx, stride, n) <= MaxOffset(shape, stride, n)
  {
    if n > 0 {
      OffsetBetween(idx, shape, stride, n - 1);
      var x: int, e: int, s := idx[n - 1], shape[n - 1] as int - 1, stride[n - 1];
      if s >= 0 {
        MulMonotone(0, x, s);
        MulMonotone(x, e, s);
      } else {
        MulMonotone(0, x, -s);
        MulMonotone(x, e, -s);
      }
    }
  }

  /** The multi-index that reaches the highest offset: the last position
      along dimensions with a non-negative stride, the first otherwise. */
  function HighCorner(shape: Shape, stride: Stride): (idx: Index)
    requires |shape| <= |stride| && AllPositive(shape)
    ensures InBounds(idx, shape)
  {
    seq(|shape|, i requires 0 <= i < |shape| => if stride[i] >= 0 then shape[i] - 1 else 0)
  }

  /** The multi-index that reaches the lowest offset. */
  function LowCorner(shape: Shape, stride: Stride): (idx: Index)
    requires |shape| <= |stride| && AllPositive(shape)
    ensures InBounds(idx, shape)
  {
    seq(|shape|, i requires 0 <= i < |shape| => if stride[i] < 0 then shape[i] - 1 else 0)
  }

  /** The two corners attain the two accumulators exactly. */
  lemma {:induction false} CornersAttainOffsets(shape: Shape, stride: Stride, n: nat)
    requires |shape| <= |stride| && AllPositive(shape) && n <= |shape|
    ensures Offset(HighCorner(shape, stride), stride, n) == MaxOffset(shape, stride, n)
    ensures Offset(LowCorner(shape, stride), stride, n) == MinOffset(shape, stride, n)
  {
    if n > 0 {
      CornersAttainOffsets(shape, stride, n - 1);
    }
  }

  /** The number of elements a buffer needs so that every in-bounds
      multi-index of the view addresses a slot in it: the addressed range
      from the lowest to the highest offset, both ends included. */
  function RequiredStorage(shape: Shape, stride: Stride): int
    requires |shape| <= |stride|
  {
    MaxOffset(shape, stride, |shape|) - MinOffset(shape, stride, |shape|) + 1
  }

  /** RequiredStorage is exact: every in-bounds offset, taken relative to
      the lowest one, is below it, and two in-bounds multi-indices lie
      RequiredStorage - 1 apart, so no smaller buffer suffices. */
  lemma RequiredStorageIsTight(shape: Shape, stride: Stride)
    requires |shape| <= |stride| && AllPositive(shape)
    ensures forall idx :: InBounds(idx, shape) ==>
      0 <= Offset(idx, stride, |shape|) - MinOffset(shape, stride, |shape|) < RequiredStorage(shape, stride)
    ensures var hi, lo := HighCorner(shape, stride), LowCorner(shape, stride);
      Offset(hi, stride, |shape|) - Offset(lo, stride, |shape|) == RequiredStorage(shape, stride) - 1
  {
    forall idx | InBounds(idx, shape)
      ensures 0 <= Offset(idx, stride, |shape|) - MinOffset(shape, stride, |shape|) < RequiredStorage(shape, stride)
    {
      OffsetBetween(idx, shape, stride, |shape|);
    }
    CornersAttainOffsets(shape, stride, |shape|);
  }

  /** Over a contiguous stride the required storage is the element count,
      for every shape including the scalar one. */
  lemma RequiredStorageContiguous(shape: Shape)
    ensures RequiredStorage(shape, ContiguousStride(shape)) == Product(shape)
  {
    var stride := ContiguousStride(shape);
    OffsetsTelescope(shape, stride, |shape|);
    ContiguousSpan(shape, |shape|);
    assert shape[|shape|..] == [];
  }

  /** The storage size as written falls one element short of the addressed
      range on every non-scalar view: a buffer of StorageSizeOf elements
      cannot hold both corner elements. */
  lemma StorageSizeMissesOneElement(shape: Shape, stride: Stride)
    requires |shape| > 0 && |shape| <= |stride| && AllPositive(shape)
    ensures StorageSizeOf(shape, stride) == RequiredStorage(shape, stride) - 1
  {
    OffsetsTelescope(shape, stride, |shape|);
  }

  /** The smallest instance: a one-element vector gets no storage. */
  lemma OneElementVectorGetsNoStorage()
    ensures Product([1]) == 1 && StorageSizeOf([1], [1]) == 0
    ensures RequiredStorage([1], [1]) == 1
  {
  }
}
