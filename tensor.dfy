/** The tensor object (include/core/tensor.h, src/core/tensor.cc): a shape
    and a stride over a device buffer that is bound at most once, plus the
    links to the operator that produces it and the operators that read it.
    Operators and device buffers are represented by opaque ids. */
module Tensors {
  import opened Wrappers
  import opened TensorLayout
  import DTypes

  /** An operator, by identity. */
  type OperatorId = nat
  /** A device buffer, by identity. */
  type BlobId = nat

  datatype TensorError =
    | BadLayout          // `checkValid` failed in a constructor
    | AlreadyAllocated   // `dataMalloc` on a tensor that has data
    | NoData             // `getRawDataPtr` before any allocation
    | InvalidDataType    // `getSize` of an unrecognised element type

  /** `targets` with every occurrence of `op` erased, the rest kept in
      order. */
  function Erase(targets: seq<OperatorId>, op: OperatorId): (r: seq<OperatorId>)
    ensures op !in r
    ensures |r| <= |targets|
  {
    if |targets| == 0 then []
    else
      if targets[0] == op then Erase(targets[1..], op)
      else [targets[0]] + Erase(targets[1..], op)
  }

  /** Erasing keeps every other operator as often as it was linked. */
  lemma {:induction false} EraseCounts(targets: seq<OperatorId>, op: OperatorId)
    ensures multiset(Erase(targets, op)) == multiset(targets)[op := 0]
  {
    if |targets| > 0 {
      EraseCounts(targets[1..], op);
      assert targets == [targets[0]] + targets[1..];
    }
  }

  /** One step of erasing: the head stays unless it is `op`. */
  lemma EraseStep(targets: seq<OperatorId>, op: OperatorId)
    requires |targets| > 0
    ensures Erase(targets, op) == (if targets[0] == op then [] else [targets[0]]) + Erase(targets[1..], op)
  {
  }

  /** Removing an occurrence of `op` at position i leaves the prefix and
      what is still to be erased unchanged. */
  lemma EraseDropsAt(kept: seq<OperatorId>, i: nat, op: OperatorId)
    requires i < |kept| && kept[i] == op
    ensures var next := kept[..i] + kept[i + 1..];
      next[..i] == kept[..i] && Erase(next[i..], op) == Erase(kept[i..], op)
  {
    var next := kept[..i] + kept[i + 1..];
    assert next[i..] == kept[i + 1..];
    EraseStep(kept[i..], op);
    assert kept[i..][0] == op && kept[i..][1..] == kept[i + 1..];
  }

  /** Stepping past an entry other than `op` moves it into the kept
      prefix. */
  lemma EraseKeepsAt(kept: seq<OperatorId>, i: nat, op: OperatorId)
    requires i < |kept| && kept[i] != op
    ensures kept[..i] + Erase(kept[i..], op) == kept[..i + 1] + Erase(kept[i + 1..], op)
  {
    EraseStep(kept[i..], op);
    assert kept[i..][0] == kept[i] && kept[i..][1..] == kept[i + 1..];
    assert kept[..i + 1] == kept[..i] + [kept[i]];
  }

  /** Erasing distributes over concatenation, so the entries that stay
      keep their relative order. */
  lemma {:induction false} EraseDistributes(a: seq<OperatorId>, b: seq<OperatorId>, op: OperatorId)
    ensures Erase(a + b, op) == Erase(a, op) + Erase(b, op)
  {
    if |a| == 0 {
      assert a + b == b;
    } else {
      EraseDistributes(a[1..], b, op);
      assert (a + b)[0] == a[0] && (a + b)[1..] == a[1..] + b;
    }
  }

  /** Erasing an operator that is not linked changes nothing. */
  lemma {:induction false} EraseAbsent(targets: seq<OperatorId>, op: OperatorId)
    requires op !in targets
    ensures Erase(targets, op) == targets
  {
    if |targets| > 0 {
      EraseAbsent(targets[1..], op);
    }
  }

  /** Bytes of storage: the storage size times the element width; fails
      where the element type is unknown. */
  function BytesOf(shape: Shape, stride: Stride, dtype: DTypes.DataType): (r: Result<int, TensorError>)
    requires |shape| <= |stride|
    ensures r.Ok? <==> DTypes.Recognised(dtype.tag)
    ensures r.Ok? && AllPositive(shape) ==> r.value >= 0
  {
    match dtype.GetSize()
    case Ok(width) =>
      assert AllPositive(shape) ==> StorageSizeOf(shape, stride) * width >= 0 by {
        if AllPositive(shape) { MulMonotone(0, StorageSizeOf(shape, stride), width); }
      }
      Ok(StorageSizeOf(shape, stride) * width)
    case Err(_) => Err(InvalidDataType)
  }

  /** For a contiguous, non-scalar tensor the byte count is one element
      short of element count times width. */
  lemma ContiguousBytes(shape: Shape, dtype: DTypes.DataType)
    requires |shape| > 0 && DTypes.Recognised(dtype.tag)
    ensures BytesOf(shape, ContiguousStride(shape), dtype)
         == Ok((Product(shape) - 1) * dtype.GetSize().value)
  {
    ContiguousStorageSize(shape);
  }

  class Tensor {
    /** The element type has no setter: it is fixed at construction. */
    const dtype: DTypes.DataType
    var shape: Shape
    var stride: Stride
    /** The bound device buffer; unset until `dataMalloc`. */
    var data: Option<BlobId>
    /** Consumers, possibly with repeats. */
    var targets: seq<OperatorId>
    /** The producer, if any. */
    var source: Option<OperatorId>

    /** Field initialisation shared by both public constructors, reached
        only after the layout check passed. */
    constructor Init(shape: Shape, stride: Stride, dtype: DTypes.DataType)
      requires ValidLayout(shape, stride)
      ensures this.shape == shape && this.stride == stride && this.dtype == dtype
      ensures data == None && targets == [] && source == None
    {
      this.dtype := dtype;
      this.shape := shape;
      this.stride := stride;
      data := None;
      targets := [];
      source := None;
    }

    /** `TensorObj(shape, dtype)`: contiguous stride; fails on an empty
        dimension. */
    static method NewContiguous(shape: Shape, dtype: DTypes.DataType)
      returns (r: Result<Tensor, TensorError>)
      ensures r.Ok? <==> AllPositive(shape)
      ensures r.Err? ==> r.error == BadLayout
      ensures r.Ok? ==> (
        && fresh(r.value)
        && r.value.shape == shape && r.value.stride == ContiguousStride(shape)
        && r.value.dtype == dtype && ValidLayout(r.value.shape, r.value.stride)
        && r.value.data == None && r.value.targets == [] && r.value.source == None)
    {
      var stride := ComputeContiguousStride(shape);
      var valid := CheckValid(shape, stride);
      if valid.Err? {
        return Err(BadLayout);
      }
      var t := new Tensor.Init(shape, stride, dtype);
      return Ok(t);
    }

    /** `TensorObj(shape, stride, dtype)`: caller-supplied stride; fails
        unless the layout is valid. */
    static method NewStrided(shape: Shape, stride: Stride, dtype: DTypes.DataType)
      returns (r: Result<Tensor, TensorError>)
      ensures r.Ok? <==> ValidLayout(shape, stride)
      ensures r.Err? ==> r.error == BadLayout
      ensures r.Ok? ==> (
        && fresh(r.value)
        && r.value.shape == shape && r.value.stride == stride && r.value.dtype == dtype
        && r.value.data == None && r.value.targets == [] && r.value.source == None)
    {
      var valid := CheckValid(shape, stride);
      if valid.Err? {
        return Err(BadLayout);
      }
      var t := new Tensor.Init(shape, stride, dtype);
      return Ok(t);
    }

    /** `getRank`: the number of dimensions. */
    function Rank(): (r: nat)
      reads this
      ensures r == |shape|
    {
      |shape|
    }

    /** `getElement`: the number of elements. */
    function Element(): (e: nat)
      reads this
      ensures |shape| == 0 ==> e == 1
      ensures e > 0 <==> AllPositive(shape)
    {
      ProductPositive(shape);
      Product(shape)
    }

    /** `setShape`: replaces the shape and resets the stride to the
        contiguous stride of the new shape; no validity check. */
    method SetShape(newShape: Shape)
      modifies this
      ensures shape == newShape && stride == ContiguousStride(newShape)
      ensures data == old(data) && targets == old(targets) && source == old(source)
    {
      shape := newShape;
      stride := ComputeContiguousStride(shape);
    }

    /** `setStride`: replaces the stride only; no validity check. */
    method SetStride(newStride: Stride)
      modifies this
      ensures stride == newStride
      ensures shape == old(shape) && data == old(data) && targets == old(targets) && source == old(source)
    {
      stride := newStride;
    }

    /** `getStorageSize`: 1 for a scalar, otherwise the distance between the
        highest and the lowest reachable offset, accumulated separately for
        non-negative and negative strides. */
    method GetStorageSize() returns (size: int)
      requires |shape| <= |stride|
      ensures size == StorageSizeOf(shape, stride)
      ensures |shape| > 0 ==> size == MaxOffset(shape, stride, |shape|) - MinOffset(shape, stride, |shape|)
    {
      var maxOffset := 0;
      var minOffset := 0;
      if |shape| == 0 {
        return 1;
      }
      var i := 0;
      while i < Rank()
        invariant 0 <= i <= |shape|
        invariant maxOffset == MaxOffset(shape, stride, i)
        invariant minOffset == MinOffset(shape, stride, i)
      {
        if stride[i] >= 0 {
          maxOffset := maxOffset + (shape[i] - 1) * stride[i];
        } else {
          minOffset := minOffset + (shape[i] - 1) * stride[i];
        }
        i := i + 1;
      }
      OffsetsTelescope(shape, stride, |shape|);
      size := maxOffset - minOffset;
    }

    /** `getBytes`: storage size times element width. */
    method GetBytes() returns (r: Result<int, TensorError>)
      requires |shape| <= |stride|
      ensures r == BytesOf(shape, stride, dtype)
    {
      var size := GetStorageSize();
      match dtype.GetSize()
      case Ok(width) =>
        r := Ok(size * width);
      case Err(_) =>
        r := Err(InvalidDataType);
    }

    /** `dataMalloc(blob)`: binds an existing buffer; fails if data is
        already bound. The buffer may itself be null (`None`), in which
        case the slot stays empty and a later allocation still succeeds. */
    method DataMallocBlob(blob: Option<BlobId>) returns (r: Outcome<TensorError>)
      modifies this
      ensures old(data).Some? ==> r == Fail(AlreadyAllocated) && data == old(data)
      ensures old(data).None? ==> r == Pass && data == blob
      ensures shape == old(shape) && stride == old(stride)
      ensures targets == old(targets) && source == old(source)
    {
      if data.Some? {
        return Fail(AlreadyAllocated);
      }
      data := blob;
      return Pass;
    }

    /** `dataMalloc(runtime)`: fails if data is already bound; otherwise
        asks the runtime for exactly `getBytes()` bytes. The buffer the
        runtime hands back is the parameter `devicePtr`; the answer is the
        byte count requested. */
    method DataMalloc(devicePtr: BlobId) returns (r: Result<int, TensorError>)
      requires |shape| <= |stride|
      modifies this
      ensures shape == old(shape) && stride == old(stride)
      ensures targets == old(targets) && source == old(source)
      ensures old(data).Some? ==> r == Err(AlreadyAllocated) && data == old(data)
      ensures old(data).None? ==> r == BytesOf(shape, stride, dtype)
      ensures old(data).None? && r.Ok? ==> data == Some(devicePtr)
      ensures old(data).None? && r.Err? ==> data == None
    {
      if data.Some? {
        return Err(AlreadyAllocated);
      }
      r := GetBytes();
      if r.Ok? {
        data := Some(devicePtr);
      }
    }

    /** `getRawDataPtr`: the bound buffer; fails before allocation. */
    method GetRawDataPtr() returns (r: Result<BlobId, TensorError>)
      ensures r.Ok? <==> data.Some?
      ensures r.Ok? ==> r.value == data.value
      ensures r.Err? ==> r.error == NoData
    {
      if data.None? {
        return Err(NoData);
      }
      return Ok(data.value);
    }

    /** `addTarget`: appends a consumer; repeats are kept. */
    method AddTarget(op: OperatorId)
      modifies this
      ensures targets == old(targets) + [op]
      ensures shape == old(shape) && stride == old(stride) && data == old(data) && source == old(source)
    {
      targets := targets + [op];
    }

    /** `setSource`: records the producer, replacing any earlier one. */
    method SetSource(op: OperatorId)
      modifies this
      ensures source == Some(op)
      ensures shape == old(shape) && stride == old(stride) && data == old(data) && targets == old(targets)
    {
      source := Some(op);
    }

    /** `removeTarget`: erases every occurrence of `op` in place, stepping
        past the entries it keeps. */
    method RemoveTarget(op: OperatorId)
      modifies this
      ensures targets == Erase(old(targets), op)
      ensures shape == old(shape) && stride == old(stride) && data == old(data) && source == old(source)
    {
      var kept := targets;
      var i := 0;
      while i < |kept|
        invariant 0 <= i <= |kept|
        invariant op !in kept[..i]
        invariant Erase(targets, op) == kept[..i] + Erase(kept[i..], op)
        invariant unchanged(this)
      {
        if kept[i] == op {
          EraseDropsAt(kept, i, op);
          kept := kept[..i] + kept[i + 1..];
        } else {
          EraseKeepsAt(kept, i, op);
          i := i + 1;
        }
      }
      assert kept[i..] == [];
      targets := kept;
    }
  }

  /** One tensor from construction to allocation: it starts without data,
      binding a null buffer passes but leaves it without data, the next
      allocation binds the buffer and the one after it fails, the raw
      pointer is then the bound buffer, the element type is the one it was
      built with, and removing a consumer linked twice leaves only the
      other consumer. */
  method LifecycleScenario(shape: Shape, dtype: DTypes.DataType, blob: BlobId, other: BlobId,
                           op1: OperatorId, op2: OperatorId)
    returns (before: Result<BlobId, TensorError>, nullBind: Outcome<TensorError>,
             stillEmpty: Result<BlobId, TensorError>, first: Outcome<TensorError>,
             second: Outcome<TensorError>, after: Result<BlobId, TensorError>,
             consumers: seq<OperatorId>, kept: DTypes.DataType)
    requires AllPositive(shape) && op1 != op2
    ensures before == Err(NoData)
    ensures nullBind == Pass && stillEmpty == Err(NoData)
    ensures first == Pass && second == Fail(AlreadyAllocated)
    ensures after == Ok(blob)
    ensures consumers == [op2]
    ensures kept == dtype
  {
    var made := Tensor.NewContiguous(shape, dtype);
    var t := made.value;
    before := t.GetRawDataPtr();
    t.AddTarget(op1);
    t.AddTarget(op2);
    t.AddTarget(op1);
    nullBind := t.DataMallocBlob(None);
    stillEmpty := t.GetRawDataPtr();
    first := t.DataMallocBlob(Some(blob));
    second := t.DataMallocBlob(Some(other));
    after := t.GetRawDataPtr();
    t.SetShape(shape + [1]);
    assert t.targets == [op1, op2, op1];
    t.RemoveTarget(op1);
    assert Erase([op1, op2, op1], op1) == [op2] by {
      EraseStep([op1, op2, op1], op1);
      EraseStep([op2, op1], op1);
      EraseStep([op1], op1);
      assert [op1, op2, op1][1..] == [op2, op1] && [op2, op1][1..] == [op1] && [op1][1..] == [];
    }
    consumers := t.targets;
    kept := t.dtype;
  }
}
