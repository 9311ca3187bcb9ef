# Shapes, references, strings and names of the AMD CPU plugin

A Dafny model of the parts of `tensorflow_plugin/src/amd_cpu/util` that carry logic, with proofs of what they
promise. `dafny verify dfyconfig.toml` checks everything.

- **Broadcasting** (`BroadcastRule`, `BatchIndices`, `BCastLists`, `SuffixMatching`, `BCast`, `MatMulBCast`). The rule
  of NumPy's "General Broadcasting Rules" is written on coordinates; what `reshape` followed by `broadcast` reads is
  written separately; the class that coalesces dimensions is proved to make the two agree at every output position,
  for any number of operands. `SuffixMatching` says what that means for the operands as they are given. `DivMod` holds
  the arithmetic.
- **Weak and strong references** (`WeakRefs`, `WeakRefMoves`). One object, its WeakRefData and any number of threads, strong
  references and WeakPtrs, as a labelled transition system: one step for each atomic operation, each acquisition or
  release of the mutex and each access under it. An inductive invariant gives the theorems about all runs;
  `WeakRefMoves` says what each operation on a WeakPtr has achieved when it returns.
- **Shapes** (`ShapeSpec`, `ShapeRep`, `TensorShape`, `ShapeChecks`, `ShapeMerge`, `ShapeWorld`). The 16 bytes with
  their three layouts, byte by byte, and the out-of-line vectors on a free store (`Memory`, `Ownership`). One class
  stands for TensorShape and PartialTensorShape, told apart by a constant.
- **tstring** (`TStringRep`, `TString`, `TStringStream`, `TStringWorld`). The 24 bytes of SMALL, LARGE and VIEW
  strings, blocks from malloc, realloc and free, and the output stream on top.
- **Codecs and names** (`Bits`, `Varint`, `StringList`, `Numbers`, `HexText`, `StrUtil`, `DeviceNames`,
  `DeviceForms`). Varints follow the section "Base 128 Varints" of the Protocol Buffers Encoding specification;
  `DeviceForms` lists the texts that are device names without mentioning the parser.

Where a promise turns out not to hold, a lemma shows an input for which it fails and another says exactly when it
holds: a callback can run after its WeakPtr is destroyed; the constructor of a partial shape accepts sizes below -1;
merging compatible shapes can overflow; a stream region can have a negative size; a canonical name with a number that
was narrowed to a negative one is refused; a list of strings comes back iff each is shorter than 2^32 bytes. Where
comment and code disagree the model follows the code: without coalescing, operands of rank 0 get helper shapes of rank
1, not of the rank of the larger input (bcast.h:81-82), and SIZE_MAX is not a multiple of 16
(ctstring_internal.h:262).

CHECK failures are preconditions. Sizes, counts and addresses are unbounded integers; where the code can leave the range
of its types they are reduced to the width of the type, except for the int64 products of the broadcasting code, whose
overflow is undefined: there the contracts say when all numbers stay in the type.

## Model

| member | source | states |
|---|---|---|
| `BroadcastRule.UnravelRavel` | tensorflow_plugin/src/amd_cpu/util/bcast.h:312-323 | A row-major position inside a tensor has coordinates inside its shape, and they lead back to it |
| `BroadcastRule.RavelUnravel` | tensorflow_plugin/src/amd_cpu/util/bcast.h:312-323 | Coordinates inside a shape give a position inside the tensor and are found again there; with the row above, positions and coordinates are in bijection |
| `BroadcastRule.BroadcastIndexInRange` | tensorflow_plugin/src/amd_cpu/util/bcast.h:312-323 | Every read of the NumPy rule is inside the input |
| `BroadcastRule.SameReadIffSameKeptCoordinates` | tensorflow_plugin/src/amd_cpu/util/bcast.h:339-347 | Two output positions read the same input element iff their coordinates agree on every axis where the input size is not 1 |
| `BroadcastRule.TileIndexInRange` | tensorflow_plugin/src/amd_cpu/util/bcast.h:333-337 | What reshape followed by broadcast reads is always inside the reshaped input |
| `BatchIndices.ComputeBatchIndices` | tensorflow_plugin/src/amd_cpu/util/bcast.h:40-64 | The table filled in place, partly from entries it has just written, holds at every slot the position that reshape-then-tile reads, always below the input size, whenever each axis is kept or repeated and the dims multiply to the output size |
| `BatchIndices.Replicate` | tensorflow_plugin/src/amd_cpu/util/bcast.h:60-62 | The inner loop, which overlaps the region it reads: block after block the inner table, each further on by the increment |
| `BatchIndices.EntryByBlock` | tensorflow_plugin/src/amd_cpu/util/bcast.h:55-62 | Repeatedly reading freshly written entries amounts to quotient times increment plus the entry at the remainder |
| `BCastLists.PushRepresents` | tensorflow_plugin/src/amd_cpu/util/bcast.h:270-279 | An axis with entries of its own keeps "reshape then tile equals the broadcast rule" |
| `BCastLists.SkipRepresents` | tensorflow_plugin/src/amd_cpu/util/bcast.h:229-255 | An axis on which all sizes are 1 can be dropped without changing what is read |
| `BCastLists.MergeRepresents` | tensorflow_plugin/src/amd_cpu/util/bcast.h:256-269 | Multiplying an axis of the same pattern into the last entries keeps what every output position reads (mixed-radix carry between the merged axes) |
| `BCast.ScanAxis` | tensorflow_plugin/src/amd_cpu/util/bcast.h:206-225 | With dims below 2^31 one axis is accepted iff its sizes are compatible, and then its output size and the flags of unit sizes are found; for any dims, the size of a compatible axis is found iff it is below 2^31, since it goes through an int |
| `BCast.BCastList.constructor` | tensorflow_plugin/src/amd_cpu/util/bcast.h:136-310 | Over the operands as they are given, with axes counted from the innermost one: valid iff wherever two operands both have a k-th axis its sizes are equal or one is 1; the output has the largest rank and as its k-th size the one size other than 1, or 1; every read and every table entry is the element at the coordinates of the axes that the operand has; the gradient axes are those that it lacks or on which it has size 1. Over the 1-extended shapes: broadcasting required iff the shapes differ; for every operand the coalesced reshape and bcast read, at every output position, the element of the NumPy rule on the original shapes; gradient axes are exactly the unit axes in increasing order (none on the fast path) and separate reads exactly; with coalescing no two neighbouring axes have the same pattern, without it reshape is the 1-extended shape for rank above 0; tables are right and in range; no number exceeds the product of the output sizes with 1 for 0, and for an output that is not empty all of them are int64s iff its number of elements is one |
| `SuffixMatching.CompatibleIffMatching` | tensorflow_plugin/src/amd_cpu/util/bcast.h:178-188 | The 1-extended shapes are compatible iff the operands match from the innermost axis outwards |
| `SuffixMatching.OutputMatched` | tensorflow_plugin/src/amd_cpu/util/bcast.h:205-285 | The output of the 1-extended shapes, described on the operands as they are given |
| `SuffixMatching.AlignedRead` | tensorflow_plugin/src/amd_cpu/util/bcast.h:178-188 | Reading a 1-extended operand is reading the operand at the coordinates of its own axes |
| `SuffixMatching.LeadingOnesAreTransparent` | tensorflow_plugin/src/amd_cpu/util/bcast.h:178-188 | An operand and the same operand with leading ones read the same elements |
| `SuffixMatching.LeadingOnesMatch` | tensorflow_plugin/src/amd_cpu/util/bcast.h:178-188 | Leading ones do not change which operands match |
| `SuffixMatching.RoomReplacesZeros` | tensorflow_plugin/src/amd_cpu/util/bcast.h:226-227 | The bound on all numbers is the number of elements of the output once every 0 is replaced by 1 |
| `BCast.BCastList.CombineAxes` | tensorflow_plugin/src/amd_cpu/util/bcast.h:205-285 | The loop over the axes, with its state prev_is_one and set_one, keeps the meaning of the vectors built so far |
| `BCast.BCastList.TakeAxis` | tensorflow_plugin/src/amd_cpu/util/bcast.h:205-285 | After every axis, too, every entry of reshape, bcast and result and the batch size are at most the product of the output sizes so far, with 1 for 0, so no product on the way exceeds that of the whole output |
| `BCast.OutputCanOverflow` | tensorflow_plugin/src/amd_cpu/util/bcast.h:226-227 | Two compatible shapes whose numbers of elements are int64s while that of their output is not |
| `BCast.BCastList.MergeAxis` | tensorflow_plugin/src/amd_cpu/util/bcast.h:256-269 | The coalescing branch multiplies the last entries of every operand |
| `BCast.BCastList.SameShape` | tensorflow_plugin/src/amd_cpu/util/bcast.h:158-176 | Fast path for identical shapes: one flat axis of all elements, no repetition |
| `BCast.BCastList.Finish` | tensorflow_plugin/src/amd_cpu/util/bcast.h:286-299 | An empty result becomes [1], and all vectors are put outermost axis first |
| `BCast.UnitAxesReduceToInput` | tensorflow_plugin/src/amd_cpu/util/bcast.h:339-347 | Two output positions read the same element iff they agree on every axis outside the gradient axes |
| `MatMulBCasts.BroadcastShapeUnique` | tensorflow_plugin/src/amd_cpu/util/bcast.h:320-323 | The rule determines the output shape |
| `MatMulBCasts.FewerDimsIsTransparent` | tensorflow_plugin/src/amd_cpu/util/bcast.h:77-82 | fewer_dims_optimization is transparent: same validity, same output shape, and every output position reads the same element of every operand with it on and off; for an output that is not empty the numbers of both are int64s iff its number of elements is one |
| `MatMulBCasts.MatMulBCast.constructor` | tensorflow_plugin/src/amd_cpu/util/matmul_bcast.h:44-70 | With the sizes before the last two counted outwards: IsValid iff the k-th ones, where both operands have one, are equal or one is 1; the output has the larger number of them and as its k-th size the one other than 1, or 1; broadcasting is required iff the smaller batch size is not that of the output; then either the output is non-empty and both tables are right and in range, or the identity is the right index for every output batch; the numbers of the batch broadcast are int64s iff the number of output batches is one |
| `MatMulBCasts.BatchAndMatrixDims` | tensorflow_plugin/src/amd_cpu/util/matmul_bcast.h:46-47 | The last two dimensions are the matrix dimensions, all others the batch dimensions |
| `MatMulBCasts.MatrixDimsDoNotMatter` | tensorflow_plugin/src/amd_cpu/util/matmul_bcast.h:44-70 | Two products with the same batch dimensions and any matrix dimensions have the same validity, output batch shape, sizes and tables |
| `MatMulBCasts.RequiredMeansNonEmpty` | tensorflow_plugin/src/amd_cpu/util/matmul_bcast.h:60-68 | Comparing only the smaller batch size with the output size: when they differ the output is not empty |
| `MatMulBCasts.NotRequiredMeansInOrder` | tensorflow_plugin/src/amd_cpu/util/matmul_bcast.h:60-68 | When they are equal both operands are read in order |
| `WeakRefs.StepInv` | tensorflow_plugin/src/amd_cpu/util/refcount.h:128-180 | Every atomic or locked step of any thread keeps the whole invariant: counts, lock, destruction phase, ownership of WeakPtrs, bookkeeping of notifiers |
| `WeakRefs.GetKeeps` | tensorflow_plugin/src/amd_cpu/util/refcount.h:155-161 | The steps of GetNewRef, with TryRef as a compare-and-swap loop that may fail spuriously, keep the invariant |
| `WeakRefs.WeakKeeps` | tensorflow_plugin/src/amd_cpu/util/refcount.h:163-179 | The steps of AddNotifier, RemoveNotifier and of releasing WeakRefData keep the invariant |
| `WeakRefs.DestroyKeeps` | tensorflow_plugin/src/amd_cpu/util/refcount.h:138-153 | The steps of the destructor, with Notify dropping the lock around each callback, keep the invariant |
| `WeakRefs.StartKeeps` | tensorflow_plugin/src/amd_cpu/util/refcount.h:197-234 | Copying and dropping references, creating WeakPtrs (also from a callback or a destructor while the object is being destroyed), moving and destroying them, and taking the lock keep the invariant |
| `WeakRefs.RunInv` | tensorflow_plugin/src/amd_cpu/util/refcount.h:103-191 | The invariant holds after every run |
| `WeakRefs.NothingFreedIsTouched` | tensorflow_plugin/src/amd_cpu/util/refcount.h:128-161 | Over every run: memory of the object and of WeakRefData is not touched after it is freed, and the object is freed only after ptr is null |
| `WeakRefs.NothingLeaks` | tensorflow_plugin/src/amd_cpu/util/refcount.h:182-185 | Over every run: when no reference, no WeakPtr and no operation is left, object and WeakRefData have been freed |
| `WeakRefs.NewRefIsAlive` | tensorflow_plugin/src/amd_cpu/util/refcount.h:155-161 | Over every run: a reference that GetNewRef returns is counted, and destruction of the object has not begun |
| `WeakRefs.NullMeansDestroyed` | tensorflow_plugin/src/amd_cpu/util/refcount.h:113-119 | Over every run: GetNewRef returns null only when the strong count is 0 and destruction has begun or is over |
| `WeakRefs.WeakCountIsExact` | tensorflow_plugin/src/amd_cpu/util/refcount.h:122-125 | Over every run: the count of WeakRefData is the number of live WeakPtrs, also across moves, plus one while the object holds its own reference, which it has until its destructor lets go of it; so WeakRefCount is exact |
| `WeakRefs.NoResurrection` | tensorflow_plugin/src/amd_cpu/util/refcount.h:269-295 | A strong count that reached 0 never rises again, in every continuation |
| `WeakRefs.NotifiersRunAtMostOnce` | tensorflow_plugin/src/amd_cpu/util/refcount.h:138-153 | Over every run: callbacks run at most once, in the order of registration, and never after removal; once ptr is null each registered notifier has run exactly once or was removed, and none waits |
| `WeakRefs.NothingAfterNull` | tensorflow_plugin/src/amd_cpu/util/refcount.h:163-174 | After ptr is null no notifier is added and none runs, in every continuation |
| `WeakRefs.NoCallbackBeforeZero` | tensorflow_plugin/src/amd_cpu/util/refcount.h:106-108 | Over every run: no callback runs, and none is taken out of the map, before the strong count has reached 0 |
| `WeakRefs.RunsLaterIffInHands` | tensorflow_plugin/src/amd_cpu/util/refcount.h:142-150 | A registered notifier that is no longer in the map is called in some continuation iff Notify has it in its hands |
| `WeakRefs.RemovalIsFinalUnlessPicked` | tensorflow_plugin/src/amd_cpu/util/refcount.h:176-179 | When RemoveNotifier erases a notifier: it is in the map, and then it has not run and never runs; or it has run; or it is in the hands of Notify, and exactly then some continuation calls it after the erase. While the strong count is positive it is in the map |
| `WeakRefs.CallbackAfterDestructor` | tensorflow_plugin/src/amd_cpu/util/refcount.h:208-229 | When ~WeakPtr, or a move over a WeakPtr, has returned: its callback is called in some continuation iff Notify has it in its hands; if the strong count is then still positive, as for a caller that holds a reference, it has not run and never runs |
| `WeakRefs.CallbackCanOutliveItsWeakPtr` | tensorflow_plugin/src/amd_cpu/util/refcount.h:208-212 | A concrete run in which the callback of a WeakPtr runs after the WeakPtr is gone: the destructor does not wait |
| `WeakRefs.OwnersAlong` | tensorflow_plugin/src/amd_cpu/util/refcount.h:197-234 | Over every run: no two WeakPtrs share a notifier, and a removed notifier belongs to a WeakPtr on its way out |
| `WeakRefMoves.MoveOverHandsOver` | tensorflow_plugin/src/amd_cpu/util/refcount.h:224-234 | Over every run: when a move over a WeakPtr has returned, and no operation on the two has been started since, the destination refers to the object with the id that the source had and the source to nothing; neither refers to it if the source did not |
| `WeakRefMoves.MoveHandsOver` | tensorflow_plugin/src/amd_cpu/util/refcount.h:218-222 | A move to a WeakPtr that refers to nothing hands over data and id in one step and leaves all others as they were |
| `WeakRefMoves.DestructorLetsGo` | tensorflow_plugin/src/amd_cpu/util/refcount.h:208-212 | Over every run: after ~WeakPtr the WeakPtr refers to nothing |
| `WeakRefMoves.ConstructorRegisters` | tensorflow_plugin/src/amd_cpu/util/refcount.h:197-206 | Over every run: when the constructor with a callback has returned, the WeakPtr refers to the object and has a notifier unless destruction had got past Notify; while the strong count is positive the notifier is in the map |
| `WeakRefMoves.NoNotifierIsOrphaned` | tensorflow_plugin/src/amd_cpu/util/refcount.h:163-179 | In every reachable state each notifier in the map is that of exactly one WeakPtr, or of one AddNotifier that has still to record it |
| `WeakRefs.NoDeadlock` | tensorflow_plugin/src/amd_cpu/util/refcount.h:138-180 | In every reachable state with an operation under way some thread inside one can take a step |
| `WeakRefs.NotifyNeedNotEnd` | tensorflow_plugin/src/amd_cpu/util/refcount.h:138-153 | For every n a run in which n callbacks have run, each having registered the next one, and Notify is about to call one more |
| `Memory.Put32` | tensorflow_plugin/src/amd_cpu/util/tensor_shape.h:106-111 | Writing a field changes only its own bytes and is read back |
| `Memory.Put64` | tensorflow_plugin/src/amd_cpu/util/ctstring_internal.h:92-107 | The same for 64-bit words |
| `Memory.OwnOnly` | tensorflow_plugin/src/amd_cpu/util/tensor_shape.h:513-563 | Operations that each replace only what their owner owns compose to one that does |
| `ShapeSpec.MultiplyWithoutOverflow` | tensorflow_plugin/src/amd_cpu/util/overflow.h:31-51 | For non-negative int64s the exact product if an int64 holds it, and a negative number otherwise |
| `ShapeSpec.QuotientDetectsWrap` | tensorflow_plugin/src/amd_cpu/util/overflow.h:40-47 | The division test recognises wrap-around of the 64-bit product, and nothing else |
| `ShapeSpec.HighBitsOfOr` | tensorflow_plugin/src/amd_cpu/util/overflow.h:40-40 | The cheap test (x or y) >> 32 that MultiplyWithoutOverflow makes asks whether one factor needs more than 32 bits |
| `ShapeSpec.ElementsIsProduct` | tensorflow_plugin/src/amd_cpu/util/tensor_shape.cc:331-346 | The number of elements is the product of the sizes, and -1 iff some size is unknown |
| `ShapeSpec.ValidDimsMean` | tensorflow_plugin/src/amd_cpu/util/tensor_shape.cc:80-98 | The dimensions of a shape: at most 254, none negative except -1 in a partial shape, and from the left every product of sizes, up to the first unknown one, below 2^63 |
| `ShapeSpec.SmallFits` | tensorflow_plugin/src/amd_cpu/util/tensor_shape.cc:188-199 | Up to four sizes of at most 0xd744 multiply within int64, so the unchecked fast path cannot overflow |
| `ShapeRep.ReadAsPartial` | tensorflow_plugin/src/amd_cpu/util/tensor_shape.h:565-569 | The bytes of a TensorShape mean the same read as a PartialTensorShape |
| `ShapeRep.ReadAsFull` | tensorflow_plugin/src/amd_cpu/util/tensor_shape.cc:685-692 | The bytes of a partial shape without unknown sizes mean the same read as a TensorShape |
| `ShapeRep.Add16` | tensorflow_plugin/src/amd_cpu/util/tensor_shape.cc:366-368 | Storing a 16-bit size appends one dimension and keeps data type, tag and the other dimensions |
| `ShapeRep.Set32` | tensorflow_plugin/src/amd_cpu/util/tensor_shape.cc:446-448 | Overwriting a 32-bit size replaces that dimension only |
| `ShapeRep.HeldElements` | tensorflow_plugin/src/amd_cpu/util/tensor_shape.cc:348-407 | Which negative number stands for an unknown size changes neither the number of elements nor whether it fits |
| `ShapeRep.HeldMeans` | tensorflow_plugin/src/amd_cpu/util/tensor_shape.cc:363-407 | Which sizes a partial shape holds as -1: the negative ones that were added while all sizes were still at most six below 65534 or three below 2^32 - 2 |
| `TensorShape.Shape.constructor` | tensorflow_plugin/src/amd_cpu/util/tensor_shape.cc:256-266 | A scalar TensorShape, or a PartialTensorShape of unknown rank |
| `TensorShape.Shape.FromProto` | tensorflow_plugin/src/amd_cpu/util/tensor_shape.cc:142-159 | For every proto that passes the CHECKs: the shape of the proto if it is valid, unknown rank for a partial shape whose proto says so; sizes below -1, which pass for a partial shape, are held as unknown inside the 16 bytes and as they are in an out-of-line vector |
| `TensorShape.Shape.FromDims` | tensorflow_plugin/src/amd_cpu/util/tensor_shape.cc:161-166 | The same for a list of sizes, by InitDims |
| `TensorShape.Shape.DimSize` | tensorflow_plugin/src/amd_cpu/util/tensor_shape.cc:297-313 | The size read back from any of the three layouts is that of the plain sequence, and -1 for unknown rank |
| `TensorShape.Shape.Sizes` | tensorflow_plugin/src/amd_cpu/util/tensor_shape.cc:428-435 | All sizes read back |
| `TensorShape.Shape.IsFullyDefined` | tensorflow_plugin/src/amd_cpu/util/tensor_shape.h:260-260 | The cached element count answers whether rank and all sizes are known |
| `TensorShape.Shape.AsProto` | tensorflow_plugin/src/amd_cpu/util/tensor_shape.cc:491-501 | The proto lists the dimensions, or says that the rank is unknown |
| `TensorShape.Shape.Upgrade` | tensorflow_plugin/src/amd_cpu/util/tensor_shape.cc:375-404 | Changing the layout keeps the dimensions and adds one; a new vector is allocated at most once and is owned |
| `TensorShape.Shape.UnsafeAddDim` | tensorflow_plugin/src/amd_cpu/util/tensor_shape.cc:363-407 | In every layout the dimensions grow by the new size; data type kept; only the own vector is touched |
| `TensorShape.Shape.AddDim` | tensorflow_plugin/src/amd_cpu/util/tensor_shape.cc:348-361 | Contents grow by the size (unknown rank stays), the element count is kept up to date, under exactly the CHECKs of the code |
| `TensorShape.Shape.InitDims` | tensorflow_plugin/src/amd_cpu/util/tensor_shape.cc:184-253 | All given dimensions, by the 1-to-4-dimension fast path or one by one: the two agree |
| `TensorShape.Shape.InitSmall` | tensorflow_plugin/src/amd_cpu/util/tensor_shape.cc:202-245 | The fast path stores the sizes and the right element count |
| `TensorShape.Shape.InsertDim` | tensorflow_plugin/src/amd_cpu/util/tensor_shape.cc:413-426 | The dimension is inserted at its position; data type kept |
| `TensorShape.Shape.SetDim` | tensorflow_plugin/src/amd_cpu/util/tensor_shape.cc:437-461 | One dimension replaced, in place or through an upgrade; element count recomputed |
| `TensorShape.Shape.RemoveDimRange` | tensorflow_plugin/src/amd_cpu/util/tensor_shape.cc:463-481 | The dimensions become those that Removed keeps; nothing changes for unknown rank |
| `TensorShape.RemovedRange` | tensorflow_plugin/src/amd_cpu/util/tensor_shape.cc:463-481 | With b and e the ends, counted from the rank plus 1 when negative: nothing changes if b >= e; otherwise the rank falls by e - b, dimensions below b stay and those from b on are the old ones e - b further on |
| `TensorShape.InsertedThenRemoved` | tensorflow_plugin/src/amd_cpu/util/tensor_shape.h:216-221 | Removing the dimension that was inserted gives the dimensions back |
| `TensorShape.AllRemoved` | tensorflow_plugin/src/amd_cpu/util/tensor_shape.h:230-233 | The range from 0 to -1 is that of all dimensions |
| `TensorShape.LastRemoved` | tensorflow_plugin/src/amd_cpu/util/tensor_shape.h:223-228 | The last n dimensions are removed, whether their range is counted from the front or from the end |
| `TensorShape.Shape.RecomputeNumElements` | tensorflow_plugin/src/amd_cpu/util/tensor_shape.cc:330-346 | The cached count becomes the number of elements |
| `TensorShape.Shape.ClearAllButDataType` | tensorflow_plugin/src/amd_cpu/util/tensor_shape.cc:320-328 | Scalar again; the vector is freed; data type kept |
| `TensorShape.Shape.SlowCopyFrom` | tensorflow_plugin/src/amd_cpu/util/tensor_shape.cc:273-295 | Any combination of layouts: a copy with its own vector, freeing or reusing the old one |
| `TensorShape.Shape.Copy` | tensorflow_plugin/src/amd_cpu/util/tensor_shape.h:513-524 | Copy construction: equal contents, separate ownership |
| `TensorShape.Shape.Move` | tensorflow_plugin/src/amd_cpu/util/tensor_shape.h:526-533 | Move construction: the vector changes owner, nothing is allocated or freed |
| `TensorShape.Shape.Assign` | tensorflow_plugin/src/amd_cpu/util/tensor_shape.h:541-551 | Copy assignment, also to itself |
| `TensorShape.Shape.MoveAssign` | tensorflow_plugin/src/amd_cpu/util/tensor_shape.h:553-563 | Move assignment frees the old vector and takes over the other one; a shape moved onto itself frees its vector once and owns nothing afterwards |
| `TensorShape.Shape.AppendShape` | tensorflow_plugin/src/amd_cpu/util/tensor_shape.cc:409-411 | The dimensions of the other shape are appended; a shape appended to itself is doubled |
| `TensorShape.Shape.Destroy` | tensorflow_plugin/src/amd_cpu/util/tensor_shape.h:535-539 | Exactly the owned vector is freed |
| `ShapeChecks.IsValid` | tensorflow_plugin/src/amd_cpu/util/tensor_shape.cc:80-98 | IsValid(proto) iff at most 254 dimensions, allowed sizes, and every prefix product within int64 (or unknown rank without dimensions) |
| `ShapeChecks.IsValidShape` | tensorflow_plugin/src/amd_cpu/util/tensor_shape.cc:100-140 | Ok iff IsValid; each error status iff its reason, found at the first offending size |
| `ShapeChecks.MakeShape` | tensorflow_plugin/src/amd_cpu/util/tensor_shape.cc:574-611 | Ok iff valid, and then the shape; each error iff its reason, at the first size at which something is wrong |
| `ShapeChecks.ChecksAgree` | tensorflow_plugin/src/amd_cpu/util/tensor_shape.cc:142-159 | The proto constructor passes its CHECKs (and sizes are at least -1) iff IsValid; for a TensorShape passing the CHECKs alone is equivalent |
| `ShapeChecks.ConstructorAcceptsTooSmall` | tensorflow_plugin/src/amd_cpu/util/tensor_shape.cc:348-407 | Partial shapes with sizes below -1 pass the constructor although IsValid refuses them: alone, the size is held as unknown; the seventh one stays as it is |
| `ShapeChecks.PrintedParsed` | tensorflow_plugin/src/amd_cpu/util/tensor_shape.cc:491-501 | AsProto of the constructed shape is the proto again iff the constructor dropped nothing: the flag of a TensorShape proto, or dimensions beside the flag |
| `ShapeChecks.ParsedPrinted` | tensorflow_plugin/src/amd_cpu/util/tensor_shape.cc:491-501 | Every shape is rebuilt from its proto, which is valid |
| `ShapeMerge.MergedMatchesBoth` | tensorflow_plugin/src/amd_cpu/util/tensor_shape.cc:654-683 | A concrete shape fits the merged shape iff it fits both arguments |
| `ShapeMerge.CompatibleIffCommon` | tensorflow_plugin/src/amd_cpu/util/tensor_shape.cc:704-715 | Compatible iff some concrete shape fits both |
| `ShapeMerge.MergeCommutes` | tensorflow_plugin/src/amd_cpu/util/tensor_shape.cc:654-683 | Merging is commutative |
| `ShapeMerge.MergeAssociates` | tensorflow_plugin/src/amd_cpu/util/tensor_shape.cc:654-683 | Merging is associative, also in whether it succeeds |
| `ShapeMerge.MergeIdempotent` | tensorflow_plugin/src/amd_cpu/util/tensor_shape.cc:654-683 | Merging a shape with itself gives it back |
| `ShapeMerge.MergeCanOverflow` | tensorflow_plugin/src/amd_cpu/util/tensor_shape.cc:680-680 | Two valid compatible shapes whose merge runs into a CHECK failure of AddDim |
| `ShapeMerge.MergeChecksAgree` | tensorflow_plugin/src/amd_cpu/util/tensor_shape.cc:669-682 | The merge of two valid shapes of equal rank passes every CHECK of AddDim iff the sizes merged before the first disagreement multiply within int64; for compatible shapes iff the merged dimensions fit |
| `ShapeMerge.ClearedIsMisread` | tensorflow_plugin/src/amd_cpu/util/tensor_shape.cc:668-673 | With the second argument as result, its size 65536 is read as 0 after it was cleared, so that merging it with an equal shape is refused |
| `ShapeMerge.ClearedIsReadInline` | tensorflow_plugin/src/amd_cpu/util/tensor_shape.cc:298-313 | In a build without DCHECKs a size of a cleared shape is still read right while both layouts are that of 16-bit sizes |
| `ShapeMerge.MergeWith` | tensorflow_plugin/src/amd_cpu/util/tensor_shape.cc:654-683 | Succeeds iff the shapes are compatible, and gives the meet, whenever the CHECKs pass |
| `ShapeMerge.IsCompatibleWith` | tensorflow_plugin/src/amd_cpu/util/tensor_shape.cc:704-715 | The loop decides compatibility |
| `ShapeMerge.IsIdenticalTo` | tensorflow_plugin/src/amd_cpu/util/tensor_shape.cc:694-702 | The loop decides equality of contents |
| `ShapeWorld.World.Step` | tensorflow_plugin/src/amd_cpu/util/tensor_shape.h:513-563 | Every operation on one or two of many shapes does what it does to the plain contents, and leaves all others as they were |
| `ShapeWorld.EditedAt` | tensorflow_plugin/src/amd_cpu/util/tensor_shape.cc:348-481 | Rank, each dimension and the data type after an edit of a variable; only Clear resets the data type |
| `ShapeWorld.InsertThenRemove` | tensorflow_plugin/src/amd_cpu/util/tensor_shape.cc:413-426 | Inserting a dimension and removing it again changes no variable |
| `ShapeWorld.AddThenRemove` | tensorflow_plugin/src/amd_cpu/util/tensor_shape.cc:348-361 | So does adding a dimension and removing the range from -2 to -1 |
| `ShapeWorld.World.Run` | tensorflow_plugin/src/amd_cpu/util/tensor_shape.cc:268-328 | Over any run the shapes refine lists of plain dims, every out-of-line vector is owned by exactly one live shape, and none is left when no shape is live |
| `Ownership.PartitionKept` | tensorflow_plugin/src/amd_cpu/util/tensor_shape.h:513-563 | An operation of one owner keeps the cells partitioned among the owners |
| `Ownership.PartitionMoved` | tensorflow_plugin/src/amd_cpu/util/tensor_shape.h:526-533 | So does handing a cell over |
| `TStringRep.NewCapacityRules` | tensorflow_plugin/src/amd_cpu/util/ctstring_internal.h:259-274 | The chosen capacity holds the string, is 15 modulo 16, at least doubles when growing, and is kept unless the string outgrows it or falls below half |
| `TStringRep.NewCapacityIs` | tensorflow_plugin/src/amd_cpu/util/ctstring_internal.h:259-274 | Which capacity it is: kept, half, double or what is asked for, the last three rounded up to 15 modulo 16 |
| `TStringRep.SizeMaxIsNotAligned` | tensorflow_plugin/src/amd_cpu/util/ctstring_internal.h:262-263 | The assumption in the comment, SIZE_MAX % 16 == 0, is false; no proof here relies on it |
| `TStringRep.AlignMask` | tensorflow_plugin/src/amd_cpu/util/ctstring_internal.h:76-76 | The mask of TF_align16 rounds up to a multiple of 16 when the sum does not wrap |
| `TStringRep.LowByte` | tensorflow_plugin/src/amd_cpu/util/ctstring_internal.h:144-146 | The type bits in byte 0 are those of the size word |
| `TString.TString.Dealloc` | tensorflow_plugin/src/amd_cpu/util/ctstring_internal.h:180-186 | The block of a LARGE string is freed, and the string is empty; others stay |
| `TString.TString.ResizeSmall` | tensorflow_plugin/src/amd_cpu/util/ctstring_internal.h:242-256 | To SMALL from any type: the kept prefix is copied, the block freed, a NUL after the end |
| `TString.TString.ResizeLarge` | tensorflow_plugin/src/amd_cpu/util/ctstring_internal.h:258-292 | To LARGE from any type: the kept prefix, the capacity rule, and no new block when the capacity stays |
| `TString.TString.ResizeUninitialized` | tensorflow_plugin/src/amd_cpu/util/ctstring_internal.h:232-293 | SMALL iff at most 22 bytes; size and common prefix right; at most one block owned, none leaked |
| `TString.TString.MakeMutable` | tensorflow_plugin/src/amd_cpu/util/ctstring_internal.h:295-311 | A VIEW becomes an owned string with the same bytes; others are unchanged |
| `TString.TString.Reserve` | tensorflow_plugin/src/amd_cpu/util/ctstring_internal.h:313-351 | Contents unchanged; nothing happens up to 22 bytes or when a LARGE string has the room; otherwise LARGE with the larger of size and request, rounded up to 15 modulo 16 |
| `TString.TString.Resize` | tensorflow_plugin/src/amd_cpu/util/ctstring_internal.h:353-363 | std::string::resize: prefix, then the fill byte |
| `TString.ResizedMeans` | tensorflow_plugin/src/amd_cpu/util/ctstring_internal.h:353-363 | Byte by byte: what was there as far as it fits, and the fill byte after it |
| `TString.TString.AssignView` | tensorflow_plugin/src/amd_cpu/util/ctstring_internal.h:365-371 | A view of external memory; an owned block is freed |
| `TString.TString.AppendN` | tensorflow_plugin/src/amd_cpu/util/ctstring_internal.h:373-382 | The bytes are appended |
| `TString.TString.Append` | tensorflow_plugin/src/amd_cpu/util/ctstring_internal.h:384-389 | The bytes of another string are appended |
| `TString.TString.Copy` | tensorflow_plugin/src/amd_cpu/util/ctstring_internal.h:391-396 | The string is exactly the bytes |
| `TString.TString.Assign` | tensorflow_plugin/src/amd_cpu/util/ctstring_internal.h:398-425 | Equal contents and separate blocks; a view is shared; assigning to itself changes nothing |
| `TString.TString.Move` | tensorflow_plugin/src/amd_cpu/util/ctstring_internal.h:427-449 | Contents and block move; a LARGE source becomes empty, SMALL and VIEW sources stay |
| `TString.TString.Erase` | tensorflow_plugin/src/amd_cpu/util/tstring.h:541-547 | The bytes in the range are gone |
| `TString.TString.Insert` | tensorflow_plugin/src/amd_cpu/util/tstring.h:549-558 | The part of the other string stands at the position |
| `TString.TString.InsertChars` | tensorflow_plugin/src/amd_cpu/util/tstring.h:560-568 | n copies of a byte stand at the position |
| `TString.TString.AppendChars` | tensorflow_plugin/src/amd_cpu/util/tstring.h:535-539 | n copies of a byte are appended |
| `TString.TString.Swap` | tensorflow_plugin/src/amd_cpu/util/tstring.h:570-573 | Contents and blocks are exchanged |
| `TString.Concat` | tensorflow_plugin/src/amd_cpu/util/tstring.h:587-594 | The concatenation, in a string of its own |
| `TStringWorld.World.Step` | tensorflow_plugin/src/amd_cpu/util/ctstring_internal.h:176-449 | Every operation on one or two of many strings does what it does to plain bytes and leaves the others as they were |
| `TStringWorld.EditedAt` | tensorflow_plugin/src/amd_cpu/util/tstring.h:535-568 | The length and every byte of a string after an edit |
| `TStringWorld.InsertThenErase` | tensorflow_plugin/src/amd_cpu/util/tstring.h:541-558 | Erasing what was inserted changes no variable |
| `TStringWorld.AppendThenErase` | tensorflow_plugin/src/amd_cpu/util/ctstring_internal.h:373-382 | So does erasing what was appended |
| `TStringWorld.SwapTwice` | tensorflow_plugin/src/amd_cpu/util/tstring.h:570-573 | Swapping exchanges the two, and swapping twice changes nothing |
| `TStringWorld.World.Run` | tensorflow_plugin/src/amd_cpu/util/ctstring_internal.h:176-449 | Over any run the strings refine byte sequences, every block is owned by exactly one string, and none is left when no string is live |
| `TStringStream.TStringOutputStream.Next` | tensorflow_plugin/src/amd_cpu/util/protobuf.cc:33-58 | The earlier bytes stay in front, the string grows to its capacity or, when that is used up, to twice its size and at least 16, and the region is what is new; its size, reported through an int, is exact iff less than 2^31 bytes are handed out: the free ones, or as many as the string has |
| `TStringStream.RegionIsExact` | tensorflow_plugin/src/amd_cpu/util/protobuf.cc:55-57 | The reported size is that of the region iff the string grows by less than 2^31 |
| `TStringStream.RegionCanBeNegative` | tensorflow_plugin/src/amd_cpu/util/protobuf.cc:55-57 | A view of 2^31 bytes gets a region of negative size |
| `TStringStream.SmallFits` | tensorflow_plugin/src/amd_cpu/util/protobuf.cc:33-58 | Below 2^30 bytes every size is reported exactly |
| `TStringStream.TStringOutputStream.BackUp` | tensorflow_plugin/src/amd_cpu/util/protobuf.cc:60-62 | The last bytes are given back, also when the string becomes SMALL |
| `TStringStream.TStringOutputStream.Run` | tensorflow_plugin/src/amd_cpu/util/protobuf.cc:33-64 | Over any run in which each size is reported exactly, whatever part of each region a client keeps, with or without BackUp: the string is the original contents followed by the bytes kept |
| `TStringStream.TStringOutputStream.Emit` | tensorflow_plugin/src/amd_cpu/util/protobuf.cc:33-64 | A client that writes bytes into region after region, as long as each size is reported exactly, appends them |
| `Bits.OrBit` | tensorflow_plugin/src/amd_cpu/util/strcat.cc:42-42 | Or-ing one bit adds it unless it is set, for the mask of AlphaNum(Hex) and the high bit of a varint byte |
| `Bits.OrShifted` | tensorflow_plugin/src/amd_cpu/util/coding.cc:163-182 | Or-ing a number shifted past the bits of the other into a word adds it modulo the word, for the varint decoders |
| `Bits.AndMask` | tensorflow_plugin/src/amd_cpu/util/ctstring_internal.h:76-76 | And-ing with a mask whose low bits are 0 rounds down to a multiple |
| `Varint.EncodeVarint32` | tensorflow_plugin/src/amd_cpu/util/coding.cc:83-109 | The unrolled encoder writes the base-128 varint |
| `Varint.EncodeVarint64` | tensorflow_plugin/src/amd_cpu/util/coding.cc:123-132 | The looped encoder writes the same varint |
| `Varint.VarintLength` | tensorflow_plugin/src/amd_cpu/util/coding.cc:146-153 | The number of bytes of the varint |
| `Varint.GetVarint32` | tensorflow_plugin/src/amd_cpu/util/coding.cc:155-194 | Fast path and fallback: reads a varint of at most 5 bytes, value modulo 2^32, and leaves the rest; fails iff no last byte is among them |
| `Varint.GetVarint64` | tensorflow_plugin/src/amd_cpu/util/coding.cc:196-224 | The same for 10 bytes and 64 bits |
| `Varint.Decoded32` | tensorflow_plugin/src/amd_cpu/util/coding.cc:155-182 | Decoding inverts encoding for every 32-bit number, with any suffix, taking exactly the encoded bytes |
| `Varint.Decoded64` | tensorflow_plugin/src/amd_cpu/util/coding.cc:196-211 | The same for every 64-bit number |
| `Varint.EncodedBytes` | tensorflow_plugin/src/amd_cpu/util/coding.cc:83-132 | Byte i of a varint holds the i-th seven bits from the low end, with the high bit set unless it is the last byte; the last byte is 0 only for 0 |
| `StringList.EncodeStringList` | tensorflow_plugin/src/amd_cpu/util/tensor_coding.cc:41-49 | Lengths as varints, then the characters |
| `StringList.DecodeStringList` | tensorflow_plugin/src/amd_cpu/util/tensor_coding.cc:51-74 | Succeeds iff n lengths can be read and add up to what follows, and then splits it |
| `StringList.DecodedEncodedList` | tensorflow_plugin/src/amd_cpu/util/tensor_coding.cc:41-74 | Decoding gives the list back iff every string is shorter than 2^32 bytes |
| `StringList.TwoStrings` | tensorflow_plugin/src/amd_cpu/util/tensor_coding.cc:41-49 | All lengths in the order of the strings, then all characters |
| `StringList.LengthsSum` | tensorflow_plugin/src/amd_cpu/util/tensor_coding.cc:41-49 | The stored lengths add up to the number of characters iff none was truncated |
| `StringList.StringListEncoder.Append` | tensorflow_plugin/src/amd_cpu/util/tensor_coding.cc:92-95 | Length to the output, characters to the rest |
| `StringList.StringListEncoder.Finalize` | tensorflow_plugin/src/amd_cpu/util/tensor_coding.cc:97-97 | The output is what it was, followed by the encoding of all strings appended |
| `StringList.ReadBack` | tensorflow_plugin/src/amd_cpu/util/tensor_coding.cc:104-129 | Reading the sizes and then each string is DecodeStringList |
| `StringList.Stream` | tensorflow_plugin/src/amd_cpu/util/tensor_coding.cc:80-129 | Streaming encoder and decoder together: the bytes of EncodeStringList from an empty output, and the strings back |
| `Numbers.FastUIntToBufferLeft` | tensorflow_plugin/src/amd_cpu/util/numbers.cc:151-183 | The decimal numeral without leading zeros, NUL-terminated, written backwards and reversed in place |
| `Numbers.FastInt64ToBufferLeft` | tensorflow_plugin/src/amd_cpu/util/numbers.cc:162-172 | The numeral with sign for every int64, also the minimum |
| `Numbers.FastInt32ToBufferLeft` | tensorflow_plugin/src/amd_cpu/util/numbers.cc:136-149 | The same for int32 |
| `Numbers.SafeStrto64` | tensorflow_plugin/src/amd_cpu/util/numbers.cc:228-267 | Accepts exactly the numerals, with spaces around, whose value is an int64, and gives that value |
| `Numbers.SafeStrtou64` | tensorflow_plugin/src/amd_cpu/util/numbers.cc:269-288 | The same for uint64 |
| `Numbers.SafeStrto32` | tensorflow_plugin/src/amd_cpu/util/numbers.cc:290-318 | The same for int32 |
| `Numbers.SafeStrtou32` | tensorflow_plugin/src/amd_cpu/util/numbers.cc:320-338 | The same for uint32 |
| `Numbers.SignedTexts` | tensorflow_plugin/src/amd_cpu/util/numbers.cc:228-267 | The texts that are read as a signed number, by the codes of their characters: spaces, a minus sign if there is one, digits, spaces |
| `Numbers.UnsignedTexts` | tensorflow_plugin/src/amd_cpu/util/numbers.cc:269-288 | The texts that are read as an unsigned number: spaces, digits, spaces |
| `Numbers.DigitsStandFor` | tensorflow_plugin/src/amd_cpu/util/numbers.cc:245-249 | A digit more is ten times the number and the digit; digits have the codes 48 to 57 |
| `Numbers.AddTest` | tensorflow_plugin/src/amd_cpu/util/numbers.cc:245-247 | The test before adding a digit fails iff the result would exceed the limit |
| `Numbers.SubtractTest` | tensorflow_plugin/src/amd_cpu/util/numbers.cc:254-256 | The test on the negative branch, with truncating division, fails iff the result would fall below the minimum |
| `Numbers.RoundingDownWouldMissOverflow` | tensorflow_plugin/src/amd_cpu/util/numbers.cc:254-256 | With division that rounds down the test would let -9223372036854775809 pass |
| `Numbers.ParsedPrinted` | tensorflow_plugin/src/amd_cpu/util/numbers.cc:136-183 | Reading a printed number gives it back, for every integer |
| `Numbers.EighthDetectsOverflow` | tensorflow_plugin/src/amd_cpu/util/str_util.cc:75-79 | new_v / 8 < v after the 64-bit multiplication iff the exact value needs more than 64 bits |
| `Numbers.ConsumeLeadingDigits` | tensorflow_plugin/src/amd_cpu/util/str_util.cc:68-91 | All leading digits are consumed iff there are some and their value fits; otherwise the input stays |
| `HexText.Uint64ToHexString` | tensorflow_plugin/src/amd_cpu/util/numbers.cc:407-416 | Sixteen hexadecimal digits, NUL-terminated |
| `HexText.HexStringToUint64` | tensorflow_plugin/src/amd_cpu/util/numbers.cc:418-437 | Accepts exactly non-empty rows of hexadecimal digits; the value modulo 2^64 |
| `HexText.HexRoundTrip` | tensorflow_plugin/src/amd_cpu/util/numbers.cc:407-437 | Reading back the sixteen digits gives the number |
| `HexText.HexDigitsAre` | tensorflow_plugin/src/amd_cpu/util/numbers.cc:407-416 | The digits that are written are lower case |
| `HexText.HexExample` | tensorflow_plugin/src/amd_cpu/util/numbers.cc:407-437 | The most significant digit comes first, in writing and in reading |
| `HexText.AlphaNumHex` | tensorflow_plugin/src/amd_cpu/util/strcat.cc:34-50 | Exactly max(spec, number of digits) digits, which stand for the value |
| `StrUtil.StringReplace` | tensorflow_plugin/src/amd_cpu/util/str_util.cc:144-161 | Terminates, and is left-to-right replacement of non-overlapping occurrences, one or all, also of an empty pattern |
| `StrUtil.NothingReplaced` | tensorflow_plugin/src/amd_cpu/util/str_util.cc:150-152 | Without an occurrence the text stays |
| `StrUtil.FirstReplaced` | tensorflow_plugin/src/amd_cpu/util/str_util.cc:150-159 | The first occurrence is replaced; of what follows it nothing or, again from the left, all |
| `StrUtil.EmptyPattern` | tensorflow_plugin/src/amd_cpu/util/str_util.cc:155-157 | An empty pattern occurs in front of every character and at the end |
| `StrUtil.Iteration` | tensorflow_plugin/src/amd_cpu/util/str_util.cc:150-159 | One iteration leaves less ahead and the final result unchanged |
| `StrUtil.CountUnderscores` | tensorflow_plugin/src/amd_cpu/util/str_util.cc:186-211 | The first pass finds the exact length of the result |
| `StrUtil.ArgDefCase` | tensorflow_plugin/src/amd_cpu/util/str_util.cc:213-233 | The second pass fills the buffer without overrun or slack |
| `StrUtil.WordsAreJoined` | tensorflow_plugin/src/amd_cpu/util/str_util.h:180-188 | What comes before the first letter is dropped; the words come out in lower case, with one underscore for every character between two of them, or one where a word follows at once |
| `StrUtil.EveryTextHasChunks` | tensorflow_plugin/src/amd_cpu/util/str_util.h:180-188 | Every text consists of such words, so the row above says what becomes of any text |
| `StrUtil.DocumentedExample` | tensorflow_plugin/src/amd_cpu/util/str_util.h:180-180 | The documented example comes out as documented |
| `StrUtil.LowerCaseIs` | tensorflow_plugin/src/amd_cpu/util/str_util.cc:225-225 | The code of a capital grows by 32; other characters stay |
| `StrUtil.ResultIsSnakeCase` | tensorflow_plugin/src/amd_cpu/util/str_util.cc:183-233 | The result is empty or matches [a-z][a-z0-9_]* |
| `StrUtil.SnakeCaseIdempotent` | tensorflow_plugin/src/amd_cpu/util/str_util.cc:183-233 | Converting twice is converting once |
| `DeviceNames.ConsumeIdentifier` | tensorflow_plugin/src/amd_cpu/util/device_name_utils.cc:40-52 | The identifier up to a terminator, refused iff it is not one |
| `DeviceNames.ParsedName.ParseFullName` | tensorflow_plugin/src/amd_cpu/util/device_name_utils.cc:105-176 | Terminates, and parses components in any order, later ones overriding; leaves nothing behind when no component was found |
| `DeviceNames.ParsedName.ParseSections` | tensorflow_plugin/src/amd_cpu/util/device_name_utils.cc:111-173 | One turn of the loop consumes components or refuses, as parsing them one by one does |
| `DeviceNames.ParsedName.ParseLocalName` | tensorflow_plugin/src/amd_cpu/util/device_name_utils.cc:505-518 | type:id and nothing else |
| `DeviceNames.ParsedName.ParseFullOrLocalName` | tensorflow_plugin/src/amd_cpu/util/device_name_utils.cc:178-181 | The remains of a failed full parse do not show in a local name |
| `DeviceForms.FullNamesAreRows` | tensorflow_plugin/src/amd_cpu/util/device_name_utils.cc:105-176 | The full names are exactly "/" and the rows of components, in any order and number, with "*" for any value and the legacy forms; a row means what its components say one after the other |
| `DeviceForms.LocalNamesAre` | tensorflow_plugin/src/amd_cpu/util/device_name_utils.cc:505-518 | The local names are exactly an identifier, a colon and digits below 2^64 |
| `DeviceForms.LastOfSort` | tensorflow_plugin/src/amd_cpu/util/device_name_utils.cc:105-176 | Of several components of a sort the last one decides |
| `DeviceForms.NoneOfSort` | tensorflow_plugin/src/amd_cpu/util/device_name_utils.cc:105-176 | Without a component of a sort nothing is said of it |
| `DeviceForms.OrderDoesNotMatter` | tensorflow_plugin/src/amd_cpu/util/device_name_utils.cc:105-176 | Components of different sorts can be exchanged |
| `DeviceForms.StarsTakeBack` | tensorflow_plugin/src/amd_cpu/util/device_name_utils.cc:113-148 | A "*" for each component says nothing and takes back what was said before |
| `DeviceForms.LegacyForms` | tensorflow_plugin/src/amd_cpu/util/device_name_utils.cc:149-167 | After any row of components and with any rest, /cpu: and /CPU: stand for /device:CPU:, and /gpu: and /GPU: for /device:GPU: |
| `DeviceForms.LegacyIds` | tensorflow_plugin/src/amd_cpu/util/device_name_utils.cc:149-167 | The type and the id that come of a legacy form with a printed number |
| `DeviceForms.NothingSaid` | tensorflow_plugin/src/amd_cpu/util/device_name_utils.cc:107-109 | "/" and the empty text are names that say nothing |
| `DeviceForms.IdentifierCharacters` | tensorflow_plugin/src/amd_cpu/util/device_name_utils.cc:31-52 | An identifier is a letter followed by letters, digits and underscores, by their codes |
| `DeviceNames.ParsedIsSound` | tensorflow_plugin/src/amd_cpu/util/device_name_utils.cc:105-176 | Parsed jobs and types are identifiers, and parsed numbers are ints |
| `DeviceNames.ParsedName.ToText` | tensorflow_plugin/src/amd_cpu/util/device_name_utils.cc:245-259 | The printed name |
| `DeviceForms.PrintedForm` | tensorflow_plugin/src/amd_cpu/util/device_name_utils.cc:245-259 | Job, replica, task and device in this order, each if it is set; a type always with an id, "*" if that is not set |
| `DeviceNames.NameRoundTrip` | tensorflow_plugin/src/amd_cpu/util/device_name_utils.cc:245-259 | A printed name is parsed back iff job and type are identifiers, no number is negative and there is no id without a type |
| `DeviceNames.CanonicalizeDeviceName` | tensorflow_plugin/src/amd_cpu/util/device_name_utils.cc:212-242 | Succeeds iff the base name is complete and the name parses; the completed name, printed |
| `DeviceForms.CanonicalForm` | tensorflow_plugin/src/amd_cpu/util/device_name_utils.cc:212-242 | All five components of the base name have to be set; the canonical name takes each from the name or else from the base |
| `DeviceNames.CanonicalIsIdempotent` | tensorflow_plugin/src/amd_cpu/util/device_name_utils.cc:212-242 | Canonicalizing a canonical name over any complete base name changes nothing iff every numeral that counts, that of the name or else of its base name, is below 2^31 modulo 2^32; otherwise it is refused |
| `DeviceNames.LargeNumeralTurnsNegative` | tensorflow_plugin/src/amd_cpu/util/device_name_utils.cc:67-75 | CPU:4294967295 canonicalizes to a name with the id -1, and that name is refused |
| `DeviceNames.ParsedName.CompleteFrom` | tensorflow_plugin/src/amd_cpu/util/device_name_utils.cc:185-207 | What is missing is taken from the base |
| `DeviceNames.CompatibleIffCommon` | tensorflow_plugin/src/amd_cpu/util/device_name_utils.cc:289-307 | Compatible iff some name is a specification of both |
| `DeviceNames.MergedIsLeast` | tensorflow_plugin/src/amd_cpu/util/device_name_utils.cc:348-428 | The merged name is the least specification of both, whichever is the target |
| `DeviceNames.SpecifiesIsOrder` | tensorflow_plugin/src/amd_cpu/util/device_name_utils.cc:262-286 | Being a specification is a partial order |
| `DeviceNames.ParsedName.Merge` | tensorflow_plugin/src/amd_cpu/util/device_name_utils.cc:348-438 | Succeeds iff mergeable under the given policy, and gives the merged name, also when a name is merged with itself |
| `DeviceNames.StrictMerge` | tensorflow_plugin/src/amd_cpu/util/device_name_utils.cc:348-438 | Without soft placement: succeeds iff compatible, with the least specification |
| `DeviceNames.SoftMerge` | tensorflow_plugin/src/amd_cpu/util/device_name_utils.cc:390-425 | With soft placement and no overriding the result contradicts neither name |
| `DeviceNames.ConflictsAreDropped` | tensorflow_plugin/src/amd_cpu/util/device_name_utils.cc:390-425 | A conflict in the types drops type and id, one in the ids only the id |
| `DeviceNames.OtherNameWins` | tensorflow_plugin/src/amd_cpu/util/device_name_utils.cc:390-425 | With overriding the result specifies the other name and keeps the rest |
| `DeviceNames.SoftMergeable` | tensorflow_plugin/src/amd_cpu/util/device_name_utils.cc:348-438 | With soft placement only job, replica and task have to agree |
| `DeviceNames.ParsedName.EnsureSpecification` | tensorflow_plugin/src/amd_cpu/util/device_name_utils.cc:309-331 | The result is a specification of the other name, and takes everything else from before |
| `DeviceNames.ParsedName.Equals` | tensorflow_plugin/src/amd_cpu/util/device_name_utils.h:72-81 | Equality ignores the values of components that are not set |

## Left out

- Broadcasting: dims of 2^31 and more, which `int output_dim` narrows, are excluded beyond BCast.ScanAxis, which says
  that the size of an axis is found iff it is below 2^31, and the path for identical shapes, which takes any dims;
  what an int64 product that overflows becomes is undefined and not modelled; the CHECKs of the TensorShapes that
  MatMulBCast builds only to count elements are not modelled, nor are operands of rank below 2 next to one of rank
  above 2, for which its iterators are out of range.
- MatMulBCasts.FewerDimsIsTransparent: dims are below 2^31, since without coalescing identical shapes, too, take the
  general path.
- BCast.BCastList.constructor: std::reverse on the vectors is a function on values, not a swap in place.
- WeakRefs: the protocol is a step relation on values, not code with threads; memory ordering is sequentially
  consistent; what a callback does is done by other threads' steps; the overflow of `int next_notifier_id` is not
  modelled; DCHECKs are not needed.
- WeakRefs.NoDeadlock: says that a step is possible, not that Notify ends, which it need not (WeakRefs.NotifyNeedNotEnd).
- ShapeMerge.MergeWith: for equal known ranks above 0 the result is not the second argument, which the source does not
  exclude: the first size it reads from the cleared shape is beyond the rank, a DCHECK failure of dim_size. What a
  build without DCHECKs then merges is not modelled beyond ShapeMerge.ClearedIsMisread and
  ShapeMerge.ClearedIsReadInline, which show a size that is read wrong and say when one is read right.
- Sizes below -1: TensorShape.Shape.FromProto and FromDims say what a partial shape then holds; the other operations
  are on valid shapes.
- Moved-from shapes are only known to be safe to destroy or assign to, as their documentation says; the argument-free
  IsValid() on shapes of unknown rank, which compares -1 with 0, is not modelled.
- ShapeChecks.MakeShape: error texts are left out.
- TString.TString.ResizeUninitialized: new bytes are arbitrary; allocation failure is not modelled, and sizes are below
  2^62, the largest that the packed size word holds.
- TString.TString.AppendN: source bytes are given as a value, which stands for memory that the string does not own;
  self-aliasing, which the C functions exclude, cannot be said.
- TString views: the viewed memory does not change and outlives the view.
- TStringWorld.World.Run: the contents of a string after it was moved from are left open there; TString.TString.Move
  states them.
- OFFSET strings, which nothing creates, and big-endian hosts.
- Varint.GetVarint: one loop stands for the two of coding.cc, which differ in the number of shifts and the word.
- Numbers.FastUIntToBufferLeft: one method stands for the 32-bit and 64-bit functions, whose code is the same.
- Numbers.ReadPositive and Numbers.ReadNarrow: each stands for the loops of two functions that differ in the limit.
- Characters are ASCII; isspace and isalpha are those of the C locale.
- Fixed-width encodings, floating-point text, human-readable formatting, hashing, FpToString, absl::Cord, error texts,
  and the printing of shapes would add easy members or need foreign code.
- Grappler passes, op-kernel and C API glue, logging, environment variables, mutex wrappers and enum tables are I/O,
  foreign calls or finite case splits.
