# Tensor runtime core: layout, tensor state, kernel registry, element types

A Dafny model of three sequential pieces of the InfiniTensor execution core:

- **Tensor layout and tensor state** (`tensor_layout.dfy`, `tensor.dfy`).
  This covers the row-major stride of a shape, the validity check of a
  shape/stride pair, and the storage size of a strided view. The storage
  size is modelled as the code computes it: `max_offset - min_offset`, or 1
  for a scalar. Element count and byte count are included.
  The class `Tensors.Tensor` holds the tensor's fields:
  - `dtype` is a `const`, because the source has no setter for it.
  - `shape` and `stride` are sequences. Shape entries are `nat` (`size_t`).
    Stride entries are `int` (`ptrdiff_t`), so they may be zero or negative.
  - `data` is the buffer slot, bound at most once.
  - `targets` is the list of consumers. It may contain repeats.
  - `source` is the optional producer link.
  Operators and device buffers are opaque ids.
- **Kernel registry** (`kernel.dfy`). This is the map from the
  (device, operator type) key to a record (kernel, name, sequence number),
  together with the `nKernels` counter. The class invariant says that the
  records are numbered 1..`nKernels`, one number per entry, with no number
  used twice.
- **Element-type catalog** (`dtype.dfy`). This is the closed table from a
  type tag to a byte width and a display name. The two lookups handle an
  unknown tag differently: the size query fails, while the name query
  returns `"INVALID"`.

`wrappers.dfy` holds the `Result`/`Outcome`/`Option` types. Each fatal
assertion or exception in the source becomes an `Err` or `Fail` value, and
the contracts state these values.

## Model

| member | source | states |
|---|---|---|
| `DTypes.DataType.GetSize` | include/core/dtype.h:9-54 | succeeds exactly on the listed tags and fails with the invalid-type error otherwise; every width is 1, 2, 4, 8 or 16 |
| `DTypes.DataType.ToString` | include/core/dtype.h:58-103 | total; the name is `"INVALID"` exactly when the tag is not listed |
| `DTypes.WidthTable` | include/core/dtype.h:13-50 | I8/U8/BYTE/BOOL/F8 are 1 byte, F16/BF16/I16/U16/C16 are 2, F32/I32/U32/C32 are 4, F64/I64/U64/C64 are 8, C128 is 16 |
| `DTypes.ComplexIsPairOfReals` | include/core/dtype.h:41-48 | each complex width is twice the width of the real type of half its size |
| `DTypes.SizeDefinedIffNamed` | include/core/dtype.h:9-103 | the size query succeeds if and only if the name query does not return the sentinel |
| `DTypes.NamesAreInjective` | include/core/dtype.h:58-103 | two recognised tags with the same name are the same tag |
| `DTypes.GetTypeReturnsTag` | include/core/dtype.h:56 | `getType` returns the tag the value was built from |
| `Kernels.RegisterKeepsNumbering` | include/core/kernel.h:36-42 | adding an absent key under number n+1 keeps the table well numbered with count n+1 |
| `Kernels.NumbersAreOneToN` | include/core/kernel.h:22-23 | in a well-numbered table the sequence numbers in use are exactly 1..nKernels |
| `Kernels.KernelRegistry.constructor` | include/core/kernel.h:22-23 | a new registry is empty with counter 0 and well numbered |
| `Kernels.KernelRegistry.RegisterKernel` | include/core/kernel.h:36-42 | fails and changes nothing when the key is present; otherwise maps the key to (kernel, name, old counter + 1), leaves every other key as it was, increments the counter by one, answers true, and keeps the numbering invariant |
| `Kernels.KernelRegistry.GetKernel` | include/core/kernel.h:43-48 | succeeds exactly when the key is registered and then returns the kernel stored under it; fails with not-found otherwise; changes nothing |
| `Kernels.KernelRegistry.GetKernelItem` | include/core/kernel.h:49-52 | succeeds exactly when the key is registered and then returns the whole record; an absent key fails as `map::at` does; changes nothing |
| `Kernels.RegistrationScenario` | include/core/kernel.h:36-52 | on a fresh registry, one operator type under two devices gives two independent entries; re-registering a key fails; lookups return exactly the registered kernels; an unregistered key is not found |
| `TensorLayout.ContiguousStride` | src/core/tensor.cc:129-139 | the row-major stride has one entry per dimension, and entry i is the product of the dimensions after i |
| `TensorLayout.ContiguousStrideRecurrence` | src/core/tensor.cc:129-139 | the last stride is 1, and each earlier stride is the next stride times the next dimension |
| `TensorLayout.ComputeContiguousStride` | src/core/tensor.cc:129-139 | the backward loop with a running product yields exactly the row-major stride |
| `TensorLayout.CheckValid` | src/core/tensor.cc:141-149 | answers true when shape and stride have equal length and every dimension is positive; fails otherwise |
| `TensorLayout.ProductPositive` | src/core/tensor.cc:50-53 | the element count is positive if and only if no dimension is zero |
| `TensorLayout.Span` | src/core/tensor.cc:55-77 | the reference sum of (size - 1) * abs(stride) is non-negative when all dimensions are positive |
| `TensorLayout.OffsetsTelescope` | src/core/tensor.cc:57-75 | `max_offset - min_offset` equals the sum of (size - 1) * abs(stride); with positive dimensions, `max_offset >= 0 >= min_offset` |
| `TensorLayout.StorageSizeOf` | src/core/tensor.cc:55-77 | the storage size is non-negative when all dimensions are positive |
| `TensorLayout.ContiguousSpan` | src/core/tensor.cc:55-77 | over the row-major stride, the first n dimensions span the element count minus the element count of the remaining dimensions |
| `TensorLayout.ContiguousStorageSize` | src/core/tensor.cc:55-77 | for a non-scalar shape with its row-major stride, the storage size is the element count minus 1 |
| `TensorLayout.OffsetBetween` | src/core/tensor.cc:55-77 | every in-bounds multi-index addresses an offset between `min_offset` and `max_offset` |
| `TensorLayout.CornersAttainOffsets` | src/core/tensor.cc:55-77 | two in-bounds corner indices reach exactly `max_offset` and exactly `min_offset` |
| `TensorLayout.RequiredStorageIsTight` | src/core/tensor.cc:55-77 | `max_offset - min_offset + 1` elements hold every in-bounds offset, and no smaller buffer does |
| `TensorLayout.RequiredStorageContiguous` | src/core/tensor.cc:55-77 | over the row-major stride, `max_offset - min_offset + 1` is the element count for every shape, the scalar included |
| `TensorLayout.StorageSizeMissesOneElement` | src/core/tensor.cc:55-77 | for every non-scalar view with positive dimensions, the storage size as written is one less than the addressed range |
| `TensorLayout.OneElementVectorGetsNoStorage` | src/core/tensor.cc:55-77 | shape [1] with stride [1] has one element but gets a storage size of 0 |
| `Tensors.Erase` | src/core/tensor.cc:118-127 | the result holds no occurrence of the operator and is no longer than the input |
| `Tensors.EraseCounts` | src/core/tensor.cc:118-127 | every other operator keeps its number of occurrences, and the erased operator has none |
| `Tensors.EraseDistributes` | src/core/tensor.cc:118-127 | erasing distributes over concatenation, so the remaining entries keep their relative order |
| `Tensors.EraseAbsent` | src/core/tensor.cc:118-127 | erasing an operator that is not linked leaves the list unchanged |
| `Tensors.BytesOf` | src/core/tensor.cc:79-82 | the byte count is defined exactly when the element type is recognised, and is then non-negative for positive dimensions |
| `Tensors.ContiguousBytes` | src/core/tensor.cc:79-82 | for a contiguous non-scalar tensor, bytes = (element count - 1) * element width |
| `Tensors.Tensor.Init` | include/core/tensor.h:22-27 | fields start with the given shape, stride and type, no data, no consumers and no producer |
| `Tensors.Tensor.NewContiguous` | src/core/tensor.cc:11-16 | succeeds exactly when every dimension is positive; the new tensor has the row-major stride, a valid layout, the given type and no data or links |
| `Tensors.Tensor.NewStrided` | src/core/tensor.cc:18-19 | succeeds exactly when the layout is valid; the new tensor keeps the given shape, stride and type, with no data or links |
| `Tensors.Tensor.Rank` | src/core/tensor.cc:84-87 | the rank is the number of dimensions |
| `Tensors.Tensor.Element` | src/core/tensor.cc:50-53 | the element count is 1 for a scalar, and positive if and only if no dimension is zero |
| `Tensors.Tensor.SetShape` | src/core/tensor.cc:26-30 | replaces the shape and resets the stride to the row-major stride of the new shape; data and links are unchanged; no validity check |
| `Tensors.Tensor.SetStride` | src/core/tensor.cc:34 | replaces only the stride, with no validity check |
| `Tensors.Tensor.GetStorageSize` | src/core/tensor.cc:55-77 | the two-accumulator loop returns 1 for a scalar; otherwise it returns `max_offset - min_offset`, which equals the reference sum of (size - 1) * abs(stride) |
| `Tensors.Tensor.GetBytes` | src/core/tensor.cc:79-82 | storage size times element width; fails for an unrecognised type |
| `Tensors.Tensor.DataMallocBlob` | src/core/tensor.cc:38-42 | fails and changes nothing when data is bound; otherwise binds the given buffer, which may be null and then leaves the slot empty; shape, stride and links are unchanged |
| `Tensors.Tensor.DataMalloc` | src/core/tensor.cc:44-48 | fails when data is bound; otherwise requests exactly the byte count and binds the buffer the runtime returns; shape, stride and links are unchanged |
| `Tensors.Tensor.GetRawDataPtr` | include/core/tensor.h:54-61 | fails until data is bound; afterwards returns the bound buffer |
| `Tensors.Tensor.AddTarget` | src/core/tensor.cc:116 | appends the consumer, keeping repeats; nothing else changes |
| `Tensors.Tensor.SetSource` | src/core/tensor.cc:117 | sets the single producer link; nothing else changes |
| `Tensors.Tensor.RemoveTarget` | src/core/tensor.cc:118-127 | the in-place erase loop leaves exactly the erased list, so no occurrence of the operator remains and the other entries keep their order; nothing else changes |
| `Tensors.LifecycleScenario` | include/core/tensor.h:22-27 | a new tensor has no data; binding a null buffer passes and leaves it without data; the next allocation succeeds and the second fails; the raw pointer then returns the first buffer; the element type is unchanged after `setShape`; removing a consumer linked twice leaves only the other consumer |

## Findings

| source | as written | input that shows it | evidently intended | confidence | as-written member | corrected member |
|---|---|---|---|---|---|---|
| src/core/tensor.cc:55-77 | a non-scalar view gets `max_offset - min_offset` elements, which is the distance between its lowest and highest offsets | shape [1], stride [1] gets 0 elements for 1 element; shape [2,3], stride [3,1] gets 5 elements for 6 | `max_offset - min_offset + 1`, which is the element count for row-major strides; the scalar branch already returns 1 | high; not executed | `TensorLayout.StorageSizeMissesOneElement` | `TensorLayout.RequiredStorageIsTight` |

The tensor class keeps the value the code computes (`GetStorageSize`,
`GetBytes`, `DataMalloc`), because that is the value the runtime allocates.
The corrected size is `TensorLayout.RequiredStorage`:
- `RequiredStorageIsTight` proves that it is the exact number of elements
  the view addresses.
- `RequiredStorageContiguous` proves that it equals the element count over
  the row-major stride.

The scalar branch returns 1, which is the element count of a scalar. Over
a contiguous stride, the non-scalar branch returns one less than the
element count. The model follows the code.

## Left out

- `Tensors.Tensor.GetStorageSize`, `Tensors.Tensor.GetBytes` and `Tensors.Tensor.DataMalloc` require at least as many strides as dimensions. `setStride` does not check this, and with a shorter stride the source reads past the end of the stride vector, which is undefined behaviour.
- Machine widths are not modelled. The model uses mathematical integers throughout. `getElement` accumulates into an `int`. `getStorageSize` accumulates negative products into a `size_t`, relying on wrap-around. For a zero dimension set through `setShape`, `shape[i] - 1` wraps in the source. The model gives the intended mathematical value instead.
- `computeContiguousStride` takes its length from the rank of the tensor's own shape. Both callers pass that same shape, so the model computes over its argument.
- The C++ constructors can throw, but a Dafny constructor cannot fail. They are therefore the static methods `NewContiguous` and `NewStrided`, which return a `Result`. These share the private constructor `Init`.
- Device allocation in `dataMalloc(runtime)` is a call into the device runtime. The buffer it returns is a parameter, and the method reports the byte count it requests.
- The device-runtime wrappers of src/core/runtime.cc are not modelled: memory calls, init, device count, device selection and synchronisation. They are one-line calls into the foreign device API.
- The per-thread device contexts of src/core/runtime.cc are not modelled. They are concurrency plumbing. As written, `getCurrentThreadContext` reads its own function-local thread-local, which is never set, so it always fails.
- `RuntimeObj::run` is not modelled. It only looks up a kernel per operator and calls the virtual `Kernel::compute` on a device stream.
- include/core/graph.h and include/core/runtime.h are not part of this model. They hold only declarations, and the graph algorithms' bodies are outside the modelled files.
- `TensorObj::toString` is not modelled. It prints a raw pointer through `vecToString`, which is defined outside the modelled files.
- The weak references behind `getTargets` and `getSource` are replaced by plain operator ids.
- The plain field getters (`getFuid`, `getDataType`, `getShape`, `getStride`, `getData`) are field reads of the class. The functional id is not modelled.
- The registry's destructor, its `getInstance` singleton and the `REGISTER_KERNEL` static-registration macro are not modelled. They concern process lifetime.
- `Kernel::compute` is not modelled, and kernels are opaque ids.
