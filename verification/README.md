# The GF(2^16) engine of ParPar

ParPar computes PAR2 recovery slices: every output slice is a linear combination of the input
slices, with coefficients in the field GF(2^16) of polynomial 0x1100B.  This project models the
engine that does so, and proves that what comes out is that combination.

What is modelled, by module:

* `Field`, `FieldOrder` - the field itself: the shift-and-add product, its laws, inverses, and that 2 has order
  exactly 65535, found by squarings and the prime factors of 65535.  `Blocks` lifts it to blocks of words and defines the running checksum,
  a Horner sum that can be wound over a run of zero blocks and rewound; `Bytes` cuts byte strings into
  blocks; `Arith` holds arithmetic.
* `Layout`, `Packed`, `Prepare`, `PrepareParts`, `Muladd`, `Finish`, `FinishParts`, `EndToEnd` - the packed,
  interleaved, checksummed buffer.  One address map is defined, shown to be a bijection, and every
  function that packs, combines or unpacks is proved against it; the last module puts them together.
* `WorkSplit`, `Scheduler`, `SchedulerProof`, `SchedulerRuns`, `CpuBackend` - the pipeline of one main thread,
  one transfer thread and N workers over a ring of staging areas, as a state machine with an invariant,
  theorems over all runs, and a class whose methods are the steps.
* `PackedRuns`, `Pipeline` - the scheduler on the packed staging areas and the outputs' memory: over every run the
  buffers hold, block by block, what the scheduler's invariant says of its cells; then finish reads them back.
* `Controller`, `ControllerRuns`, `ControllerFinish`, `Allocation` - several backends sharing a slice: who gets
  which input and when callbacks fire, over any run of additions, refusals, resends and completions; and how
  the slice is divided.
* `Coefficients` - the tables that give every input its constant and every exponent its power.
* `Swar`, `Lookup`, `Lookup2`, `ChecksumGeneric`, `Clmul`, `BitDep`, `XorProgram` - the fast multiplication
  kernels, each proved to compute the plain product.
* `CksumCopy` - the checksummed plain copy and its check.

Machine memory is modelled as arrays of blocks (the packed buffer), of bytes (slices) or of words
(tables).  Lengths that the code counts in bytes but that are always whole blocks are counted in blocks;
`Layout.ChecksumPtrScales` shows for the one closed formula that this changes nothing.  A block has
`LANES` words, which stands for any block length.  The instance is the generic little-endian one, where
preparing a block copies it.  Unsigned wrap-around is written out where the code relies on it (register
arithmetic is on bit-vectors; the prefetch counters wrap).

Some properties one might expect do not hold without a condition.  Each is stated with its exact one:

* Packing in parts may go on after the call that completed the source, with empty parts; every such call winds
  the stored checksum over the padding once more.  With k of them, the slice is that of one call, for every source
  of its length, exactly when the source is empty or 65535 divides k times the number of padding blocks
  (`PrepareParts.PartsExactForAll`).
* Finishing in parts whose first parts are empty rewinds the checksum once more for each.  With n of them, the
  verdict is that of one call for every output and every stored checksum exactly when 65535 divides n times the
  number of blocks and no call follows the one that completed the slice (`FinishParts.PartsVerdictForAll`);
  such a call answers whether the stored checksum is zero.
* The final verdict on a slice with a correct checksum is positive exactly when the bytes dropped at the
  slice's end were zero (`EndToEnd.VerdictExact`); sources no longer than an output of even length ensure that.
* `checkBackendAllocation` accepts exactly the divisions that `Allocation.Passes` describes.  Those without empty
  parts are the proper ones; an empty part must have an even offset and come, in the order of the backends, while
  its offset is an end of the range joined so far.  A division it accepted may split a 16-bit word once the slice size
  is set again, since sizes are handed out in the order of the backends and not of their offsets
  (`Allocation.ReorderedSplitsWord`).
* The callback of an input is called once all backends are done with it exactly if some part covers it
  (`ControllerRuns.ExactlyOnce`; in a division, if it has a byte, `ControllerRuns.CalledIff`) and no other input is
  added under its reference before (`ControllerRuns.CalledUnlessReused`).  What happens otherwise is in
  `ControllerRuns.NotCovered`, `ControllerRuns.ReusedReference` and `ControllerRuns.ReusedUnsettled`.
* Every `endInput` has its callback called exactly if none is made from within such a callback while some backend is
  at work or has inputs that wait (`ControllerFinish.FinishedOnce`); `ControllerFinish.NestedLost` is a run that loses one.

## Model

| member | source | states |
|---|---|---|
| `Field.MulSingleScalar` | gf16/gf16_gfni_avx512.c:57-67 | the sixteen-step shift-and-add loop returns the field product |
| `Field.MulLinear` | gf16/gf16_gfni_avx512.c:57-67 | the product is linear in both factors |
| `Field.MulComm` | gf16/gf16_gfni_avx512.c:57-67 | and commutative |
| `Field.MulAssoc` | gf16/gf16_gfni_avx512.c:57-67 | and associative |
| `Field.MulOne` | gf16/gf16_gfni_avx512.c:57-67 | with 1 as its unit |
| `Field.NoZeroDivisors` | gf16/gf16_gfni_avx512.c:57-67 | a product is zero exactly when a factor is |
| `Field.InverseLaw` | gf16/gf16_gfni_avx512.c:57-67 | every non-zero word has an inverse: 0x1100B does give a field |
| `Field.DoubleInjective` | gf16/gf16_global.h:9-10 | doubling a word loses nothing, although the polynomial's top bit is cut off |
| `Field.ShiftMul` | gf16/gf16_global.h:9-10 | doubling n times commutes with multiplication |
| `Field.MulExp` | gf16/gfmat_coeff.c:67-71 | multiplying by gf16_exp(n) is doubling n times |
| `Field.ExpOrder` | gf16/gfmat_coeff.c:67-71 | 2^65535 = 1 |
| `Field.ShiftModulo` | gf16/gf16_global.h:169 | so exponents may be reduced modulo 65535 before gf16_exp is asked |
| `FieldOrder.ExactOrder` | gf16/gfmat_coeff.c:18-45 | 2^n = 1 exactly when 65535 divides n: the generator runs through all of them |
| `FieldOrder.WindFixed` | gf16/gf16_global.h:255-259 | winding a checksum over n zero blocks leaves it as it is exactly when 65535 divides n or it is zero |
| `Coefficients.CoprimesBelow` | gf16/gfmat_coeff.c:18-31 | 32768 of the numbers below 65535 are prime to it and the last is 65534, which is why the loop may stop there |
| `Coefficients.NearlyHalf` | gf16/gfmat_coeff.c:30 | logarithm i differs from 2 * i by what fits a signed byte |
| `Coefficients.Tables.constructor` | gf16/gfmat_coeff.c:9-45 | gfmat_init ends at 65534 with input i's logarithm the i-th number prime to 65535, every eighth exponent in its place, and the corrections |
| `Coefficients.OnlyLog` | gf16/gfmat_coeff.c:80-82 | there is only one such logarithm |
| `Coefficients.LeftByDoubles` | gf16/gfmat_coeff.c:67-70 | shifting a word left by n and folding back what goes over the top is doubling it n times |
| `Coefficients.Tables.Gf16Exp` | gf16/gfmat_coeff.c:67-71 | so gf16_exp, with two look-ups, is the power of two for every exponent up to 65535 |
| `Coefficients.CoeffLogModulo` | gf16/gfmat_coeff.c:84-94 | adding the halves of the product of logarithm and exponent reduces it modulo 65535 |
| `Coefficients.Tables.Coeff` | gf16/gfmat_coeff.c:96-101 | gfmat_coeff is the input's constant to the power of the recovery exponent |
| `Coefficients.FullOrder` | gf16/gfmat_coeff.c:18-31 | every input's constant has order 65535, so that its powers differ for all exponents below |
| `Blocks.ChecksumAppend` | gf16/gf16_global.h:124-129 | the checksum of a concatenation goes on from the checksum of the first part |
| `Blocks.ChecksumZeroes` | gf16/gf16_global.h:169 | a run of zero blocks only multiplies the checksum by a power of two |
| `Blocks.ScaleExp` | gf16/gf16_global.h:169 | and that is one checksumExp, with the exponent reduced modulo 65535 |
| `Blocks.RewindThenWind` | gf16/gf16_global.h:255-259 | rewinding by 65535 - n mod 65535 is undone by n steps, for any n |
| `Blocks.RewindVerdict` | gf16/gf16_global.h:255-259 | a checksum rewound and run over the blocks ends at zero exactly when it is theirs |
| `Blocks.ChecksumCombination` | gf16/gf16_global.h:169 | the checksum of a linear combination is the same combination of the checksums |
| `Blocks.ChecksumMisses` | gf16/gf16_global.h:324-334 | changes in two blocks go unnoticed exactly when the first, wound as far as they are apart, is the second |
| `Blocks.ChecksumDetects` | gf16/gf16_global.h:324-334 | so a change in a single block never does |
| `FieldOrder.SwapNoticed` | gf16/gf16_global.h:324-334 | and an exchange of two different blocks exactly when 65535 divides their distance |
| `Blocks.CombineWordsOne` | gf16/gf16_gfni_avx512.c:57-67 | the combination that outputs are compared with: of one word, its product with the coefficient |
| `Blocks.CombineWordsAppend` | gf16/gf16_muladd_multi.h:329-335 | and of more, the sum over its parts |
| `Bytes.BytesNumber` | gf16/gf16_lookup.c:230-235 | two bytes make the number lo + 256 * hi |
| `Bytes.ByteNumbers` | gf16/gf16_lookup.c:624-630 | and a word comes apart into its remainder and quotient by 256 |
| `Bytes.WordAtNumber` | gf16/gf16_lookup.c:230-235 | word w of a byte string is that number of bytes 2 * w and 2 * w + 1, those past the end being zero |
| `Bytes.LoadStore` | gf16/gf16_lookup.c:624-630 | prepareBlock undoes finishBlock |
| `Bytes.StoreLoad` | gf16/gf16_lookup.c:624-630 | finishBlock undoes prepareBlock and prepareBlockU, whose padding comes back as zeroes |
| `Layout.OffsetInjective` | gf16/gf16_global.h:68-81 | no two blocks, checksums included, share a place, with the short last chunk and the narrower last group |
| `Layout.OffsetOnto` | gf16/gf16_global.h:68-81 | and every place of the n * (d + 1) blocks is used |
| `Layout.OffsetBounds` | gf16/gf16_global.h:68-81 | all of them inside the buffer |
| `Layout.ChecksumPtrIsOffset` | gf16/gf16_global.h:68-81 | gf16_checksum_ptr is the place of the block after the data |
| `Layout.ChecksumPtrScales` | gf16/gf16_global.h:68-81 | the byte formula is the block formula times the block length |
| `Packed.GetPut` | gf16/gf16_global.h:85-219 | writing blocks of one slice changes exactly those and no block of another slice |
| `Packed.PutAppend` | gf16/gf16_global.h:85-219 | consecutive writes are one write |
| `Prepare.ChunkAddress` | gf16/gf16_global.h:111-123 | the addresses computed from dstBase, chunkStride and interleaveBy are those of the map |
| `Prepare.PartialChunk` | gf16/gf16_global.h:133-149 | the lengths derived for the chunk of the source's last bytes are right, including when that is the last chunk |
| `Prepare.PackBlocks` | gf16/gf16_global.h:124-129 | the inner loop writes the blocks it reaches, takes them into the checksum and stops when the part ends |
| `Prepare.ZeroBlocks` | gf16/gf16_global.h:170-174 | the zero fill writes the padding blocks and nothing else |
| `Prepare.CutZeroes` | gf16/gf16_global.h:166-169 | one multiplication moves the checksum over all of them |
| `Prepare.PackFullChunks` | gf16/gf16_global.h:117-131 | all chunks the source fills |
| `Prepare.PackPartialChunk` | gf16/gf16_global.h:133-178 | the chunk with the misaligned end and the zeroes after it |
| `Prepare.ZeroRest` | gf16/gf16_global.h:181-211 | the chunks past the source |
| `Prepare.PreparePacked` | gf16/gf16_global.h:85-219 | a call for a part leaves the padded blocks of that part in their places, the checksum moved on over them and, when it completes the source, stored after the data; nothing else changes |
| `PrepareParts.PreparePackedCksum` | gf16/gf16_global.h:347-352 | one call packs the zero-padded source followed by its checksum |
| `PrepareParts.PreparePartialPacksum` | gf16/gf16_global.h:353-365 | a partial call continues from the checksum kept inside the packed buffer |
| `PrepareParts.PrepareSlice` | gf16/gf16_global.h:353-365 | any sequence of parts the ASSUMEs admit, from any buffer, leaves the padded source and its checksum wound over the padding once for every call after the one that completed the source |
| `PrepareParts.PrepareInParts` | gf16/gf16_global.h:353-365 | so does the rest of such a sequence, wherever the first calls got to |
| `PrepareParts.PrepareAgain` | gf16/gf16_global.h:353-365 | calls after the completing one write the padding again and wind the stored checksum |
| `PrepareParts.PartsExact` | gf16/gf16_global.h:353-365 | for one source, parts and one call leave the same slice exactly when the windings cancel or the checksum is zero |
| `PrepareParts.PartsBuffer` | gf16/gf16_global.h:353-365 | and the same buffer under the same condition |
| `PrepareParts.PartsExactForAll` | gf16/gf16_global.h:353-365 | for every source of a length, exactly when it is empty or 65535 divides the number of further calls times the padding |
| `PrepareParts.CompletedTwice` | gf16/gf16_global.h:353-365 | [length, 0] is a sequence with one further call |
| `Muladd.InterleavedAddress` | gf16/gf16_muladd_multi.h:279-296 | INTERLEAVE_INPUTS points where prepare put the region |
| `Muladd.ConsecutiveAddress` | gf16/gf16_muladd_multi.h:298-316 | so does CONSECUTIVE_INPUTS in the last, narrower group |
| `Muladd.Blkmac` | gf16/gf16_muladd_multi.h:329-335 | the kernel contract: the regions' products are summed and added to the destination once per block |
| `Muladd.CombineAppend` | gf16/gf16_muladd_multi.h:327-337 | regions taken in two calls add up to those taken in one |
| `Muladd.Remainder` | gf16/gf16_muladd_multi.h:338-380 | whole groups after the last full call and the odd regions at the end are each read where they lie |
| `Muladd.MuladdMultiPacked` | gf16/gf16_muladd_multi.h:318-381 | every region below regions is multiplied by its coefficient and added exactly once, for any region count, pack size and interleave dividing regionsPerCall; nothing outside the destination changes |
| `Muladd.PrefetchOutput` | gf16/gf16_muladd_multi.h:396-416 | the rounds that prefetch the next output add the regions they pass and no others |
| `Muladd.PrefetchRemainder` | gf16/gf16_muladd_multi.h:417-465 | so do the last rounds, with or without prefetching |
| `Muladd.MuladdMultiPackpf` | gf16/gf16_muladd_multi.h:389-538 | whatever is prefetched, the destination is the one gf16_muladd_multi_packed leaves |
| `Finish.OutputPiece` | gf16/gf16_global.h:294-299 | a full block of the output is the block of the slice |
| `Finish.OutputTail` | gf16/gf16_global.h:288-292 | its misaligned end is that block cut short |
| `Finish.EmitBlocks` | gf16/gf16_global.h:294-299 | the inner loop emits the blocks it reaches and takes them into the checksum |
| `Finish.EmitTail` | gf16/gf16_global.h:288-292 | the misaligned end is emitted, and checksummed as if zero-filled |
| `Finish.EmitFullChunks` | gf16/gf16_global.h:273-302 | all full chunks, the one with a misaligned last block included |
| `Finish.EmitLastChunk` | gf16/gf16_global.h:304-322 | the final, shorter chunk |
| `Finish.AllZero` | gf16/gf16_global.h:324-334 | true exactly when the checksum block is zero |
| `Finish.FinishPacked` | gf16/gf16_global.h:223-338 | a call for a part emits exactly that part's bytes, moves the checksum over them, and returns true exactly when it completes the slice and the checksum is zero |
| `FinishParts.FinishPackedCksum` | gf16/gf16_global.h:389-398 | one call emits the slice, and returns 1 exactly when the stored checksum is the Horner sum of the emitted, zero-filled blocks, for any block count |
| `FinishParts.FinishPartialPacksum` | gf16/gf16_global.h:399-403 | a partial call does so for its part and keeps the checksum in the packed buffer |
| `FinishParts.FinishInParts` | gf16/gf16_global.h:399-403 | any sequence of parts the ASSUMEs admit emits the bytes one call emits; the last verdict is exact, counting empty parts at the start and calls after the completing one |
| `FinishParts.FinishAgain` | gf16/gf16_global.h:399-403 | a call after the completing one emits nothing and answers whether the checksum block is zero now |
| `FinishParts.RightChecksum` | gf16/gf16_global.h:245-260 | the right checksum is accepted exactly when 65535 divides the empty parts at the start times the blocks and no call follows the completing one, or it is zero |
| `FinishParts.PartsVerdict` | gf16/gf16_global.h:245-260 | for one output, parts and one call agree on every stored checksum exactly then |
| `FinishParts.PartsVerdictForAll` | gf16/gf16_global.h:245-260 | for every output of a length, exactly when that condition on the calls alone holds |
| `FinishParts.EmptyBeforeAndAfter` | gf16/gf16_global.h:255-259 | [0, length] and [length, 0] are the shortest sequences with such calls |
| `EndToEnd.ChunkColumn` | gf16/controller_cpu.cpp:488-494 | the source pointer of a chunk and the regions' addresses are where prepare put that chunk of every slice |
| `EndToEnd.CombineAll` | gf16/controller_cpu.cpp:488-515 | clearing and multiply-adding every chunk of every output leaves each output block, checksums included, the combination of the slices' blocks |
| `EndToEnd.PrepareAll` | gf16/gf16_global.h:347-352 | packing the sources one after the other leaves every slice in place |
| `EndToEnd.CombinedSlice` | gf16/gf16_global.h:68-338 | a combined slice's last block is the checksum of its data |
| `EndToEnd.VerdictExact` | gf16/gf16_global.h:324-334 | a slice with the right checksum is accepted exactly when dropping the bytes past its length loses nothing |
| `EndToEnd.ShortSources` | gf16/gf16_global.h:93-94 | sources no longer than an output of even length leave nothing to lose |
| `EndToEnd.OutputIsCombination` | gf16/gf16_global.h:223-338 | word by word, and in the last byte of an odd length, the output is the combination of the zero-padded sources |
| `EndToEnd.Recover` | gf16/gf16_global.h:85-338 | end to end: for any sources, coefficients, chunk length and interleave, what is finished is the linear combination; it is accepted exactly when nothing is lost at its end, so always when no source is longer than the output |
| `WorkSplit.Tiling.CalcChunkSize` | gf16/controller_cpu.cpp:127-145 | chunks are whole strides, cover the slice, none is empty and none longer than the slice; apart from aligning they are less than half again as long as the target, and more than half as long unless there is only one; and no longer than a thread's share of the slice when that is more than half the target |
| `WorkSplit.MostThreads` | gf16/controller_cpu.cpp:563-580 | fewer chunks than threads are left over, and each goes to as many threads as there are: one more would exceed the threads or the outputs |
| `WorkSplit.DistinctThreads` | gf16/controller_cpu.cpp:584-624 | no thread is sent two requests for leftover chunks, or two for full ones |
| `WorkSplit.BoundBalanced` | gf16/controller_cpu.cpp:574-588 | the outputs of a leftover chunk are cut as near to even shares as whole numbers allow |
| `WorkSplit.BoundStep` | gf16/controller_cpu.cpp:573-599 | with rounding half up, every thread of a leftover chunk gets at least one output |
| `WorkSplit.BoundMonotone` | gf16/controller_cpu.cpp:573-599 | and their ranges do not go back |
| `WorkSplit.BoundEnds` | gf16/controller_cpu.cpp:573-599 | the ranges start at the first output and end at the last |
| `WorkSplit.OwnerCovers` | gf16/controller_cpu.cpp:563-624 | every cell of the grid of chunks and outputs is in the request that its owner index names, a function of the counts alone |
| `WorkSplit.CoverUnique` | gf16/controller_cpu.cpp:563-624 | and in no other: the requests partition the grid |
| `WorkSplit.RequestInGrid` | gf16/controller_cpu.cpp:563-624 | no request leaves the grid or names a thread that does not exist |
| `WorkSplit.WorkerAddresses` | gf16/controller_cpu.cpp:488-494 | the input a worker reads for a cell is where prepare put that chunk, and the output it writes is where finish reads it |
| `WorkSplit.SplitBatch` | gf16/controller_cpu.cpp:539-624 | run_kernel sends exactly these requests, in order, and stores their number in procRefs |
| `WorkSplit.SendLeftover` | gf16/controller_cpu.cpp:566-605 | the loop over leftover chunks sends its share of them |
| `SchedulerProof.AddInputSubmit` | gf16/controller_cpu.cpp:290-331 | an add that hands its batch over keeps the invariant |
| `SchedulerProof.AddInputOpen` | gf16/controller_cpu.cpp:290-331 | so does one that does not |
| `SchedulerProof.FlushKept` | gf16/controller_cpu.cpp:387-408 | so does flush |
| `SchedulerProof.TransferMove` | gf16/controller_cpu.cpp:237-255 | so does moving an input into its slot |
| `SchedulerProof.TransferStart` | gf16/controller_cpu.cpp:539-561 | so does the start of run_kernel |
| `SchedulerProof.TransferSend` | gf16/controller_cpu.cpp:563-624 | so does each request sent |
| `SchedulerProof.StartKept` | gf16/controller_cpu.cpp:463-465 | so does a worker taking a request |
| `SchedulerProof.CurrentTask` | gf16/controller_cpu.cpp:463-525 | whatever the interleaving, a worker is at the first batch its cells still wait for, and that batch is in its area |
| `SchedulerProof.CellIsTotal` | gf16/controller_cpu.cpp:488-515 | what it stores is the sum of all batches up to and including its own |
| `SchedulerProof.WorkKept` | gf16/controller_cpu.cpp:488-515 | so does computing one cell |
| `SchedulerProof.LastRequest` | gf16/controller_cpu.cpp:524-535 | the countdown reaches zero exactly at the last request of the oldest batch in work |
| `SchedulerProof.FinishKept` | gf16/controller_cpu.cpp:524-535 | so does finishing a request |
| `SchedulerProof.NotifyKept` | gf16/controller_cpu.cpp:627-646 | so does the notification that an area is free |
| `SchedulerRuns.InitInv` | gf16/controller_cpu.cpp:17-27 | the invariant holds when nothing has been added yet |
| `SchedulerRuns.RunKept` | gf16/controller_cpu.cpp:237-647 | the invariant holds after every run, in any interleaving of the threads |
| `SchedulerRuns.RunAccepted` | gf16/controller_cpu.cpp:290-331 | what was accepted is what the run added, in order |
| `SchedulerRuns.DrainedResult` | gf16/controller_cpu.cpp:539-624 | once drained, every output cell is the sum of coefficient times input over all inputs of the run, each exactly once |
| `SchedulerRuns.AddMeans` | gf16/controller_cpu.cpp:311-326 | an input hands the open batch over when a flush is asked for, when the batch is full, or early while nothing is active, there is more than one area and the minimum is reached; otherwise it waits, and no area changes |
| `SchedulerRuns.FlushMeans` | gf16/controller_cpu.cpp:387-408 | a flush hands over exactly what waits, and does nothing when nothing does |
| `SchedulerRuns.FlushedRun` | gf16/controller_cpu.cpp:311-408 | a run whose last input is flushed, with itself or by a later flush, leaves no input waiting |
| `SchedulerRuns.FlushedResult` | gf16/controller_cpu.cpp:311-624 | so after any such run the threads drain it by themselves, and every output cell is then the sum over all inputs of the run |
| `SchedulerRuns.NoSharedCell` | gf16/controller_cpu.cpp:488-515 | two threads are never at, nor heading for, the same output cell |
| `SchedulerRuns.ReaderIsActive` | gf16/controller_cpu.cpp:293-297 | an area a worker reads is active, so the main thread will not write its coefficients |
| `SchedulerRuns.TransferElsewhere` | gf16/controller_cpu.cpp:244-245 | nor does the transfer thread store into it |
| `SchedulerRuns.InactiveIsIdle` | gf16/controller_cpu.cpp:627-631 | an inactive area has no request waiting or running |
| `SchedulerRuns.ActiveCounted` | gf16/controller.h:101-112 | the active counter is the number of active areas |
| `SchedulerRuns.NeverStuck` | gf16/controller_cpu.cpp:237-647 | while anything is active or on its way, some thread can move |
| `SchedulerRuns.StepCloser` | gf16/controller_cpu.cpp:237-647 | every internal step brings the drained state closer, whichever thread takes it |
| `SchedulerRuns.Drains` | gf16/controller_cpu.cpp:237-647 | so from every reachable state all that was added gets computed and notified |
| `CpuBackend.Backend.constructor` | gf16/controller_cpu.cpp:17-27 | a new backend is in that state |
| `CpuBackend.Backend.CanAddInput` | gf16/controller_cpu.cpp:270-276 | full exactly when every area holds a batch not yet notified, and free of work exactly when none does |
| `CpuBackend.Backend.AddInput` | gf16/controller_cpu.cpp:290-331 | the input joins what was accepted; it completes a batch, whose area is locked and counted, exactly when a flush was asked for, the batch is full, or nothing is active, there is more than one area and the minimum is reached; otherwise it waits and no area changes; its message says which; invariant kept |
| `CpuBackend.Backend.Flush` | gf16/controller_cpu.cpp:387-408 | what waits becomes a batch whose area is locked and counted, or nothing changes if nothing waits; invariant kept |
| `CpuBackend.Backend.TransferMessage` | gf16/controller_cpu.cpp:237-255 | a message is dealt with as in the state machine; when it hands a batch over, the slots hold exactly its inputs and adding is off for the first batch only; no queued or running request reads the area written |
| `CpuBackend.Backend.SendNext` | gf16/controller_cpu.cpp:563-624 | the next request goes to the end of its thread's queue and no other, while the slots hold its batch; sending ends when all have gone |
| `CpuBackend.Backend.TakeRequest` | gf16/controller_cpu.cpp:463-465 | a worker takes the head of its queue: the first batch the request is due for, whose inputs are in the slots it names |
| `CpuBackend.Backend.MultiplyAdd` | gf16/controller_cpu.cpp:490-514 | clearing on the first batch only, then adding every input times its coefficient |
| `CpuBackend.Backend.ComputeCell` | gf16/controller_cpu.cpp:488-515 | the cell then holds the sum over all batches up to this one; no other cell changes and no other thread is at it |
| `CpuBackend.Backend.FinishRequest` | gf16/controller_cpu.cpp:524-535 | the oldest batch's area is notified exactly when every request has gone through that batch |
| `CpuBackend.Backend.NotifySent` | gf16/controller_cpu.cpp:259-267 | the pending counter is the number of messages on their way there or back |
| `CpuBackend.Backend.NotifyProc` | gf16/controller_cpu.cpp:627-646 | the area becomes inactive, no request that reads it is queued or running, and the counter is the number of active areas |
| `CpuBackend.Backend.ReadOutput` | gf16/controller_cpu.cpp:423-443 | once empty, what getOutput reads is the sum over everything accepted |
| `PackedRuns.WorkRegion` | gf16/controller_cpu.cpp:488-515 | one output in one round, at the addresses of its request and from a packed area of which the batch fills only the first slots: the chunk has the batch's combination added, or is it, and no other block changes |
| `PackedRuns.SameMemory` | gf16/controller_cpu.cpp:488-515 | which determines the memory |
| `PackedRuns.WorkedIsCellValue` | gf16/controller_cpu.cpp:488-515 | block by block that is the value the scheduler stores in the cell |
| `PackedRuns.MoveShows` | gf16/controller_cpu.cpp:244-249 | packing a slice into its slot is, at every block position, the scheduler's storing of its input |
| `PackedRuns.WorkShows` | gf16/controller_cpu.cpp:488-515 | a round on the buffers is, at every block position, the scheduler's step on its cell |
| `PackedRuns.RunShows` | gf16/controller_cpu.cpp:237-525 | every run keeps this: the same steps are a run of the scheduler at every block position, with the same control |
| `PackedRuns.BuffersShow` | gf16/controller_cpu.cpp:237-525 | so over every run, whatever the buffers held first, each slot of an area and each block of an output is what the scheduler has at that position, next to its invariant |
| `Pipeline.DrainedStored` | gf16/controller_cpu.cpp:488-494 | after a drained run every round of every request has left the scheduler's value at the address the request says |
| `Pipeline.StoredCell` | gf16/controller_cpu.cpp:488-494 | and those addresses are every block of every output |
| `Pipeline.DrainedCombined` | gf16/controller_cpu.cpp:237-525 | so after any drained run, with any batches, every block of an output is the combination of that block of all slices added |
| `Pipeline.ReadRecovered` | gf16/controller_cpu.cpp:423-443 | and what getOutput reads then is the linear combination of the slices, accepted exactly when nothing is lost at its end |
| `Controller.Proc.AddInput` | gf16/controller.cpp:172-220 | every backend whose part holds a byte of the input, that is not marked as having it and not full, is handed once the bytes its part holds, and nobody else anything; success exactly if none that wants it is full; the entry is made or its callback replaced |
| `Controller.AddStepMeans` | gf16/controller.cpp:172-220 | that, byte by byte, with the marks, which go once the input is taken, and the entry of a new reference, which counts the backends whose parts hold a byte |
| `Controller.CoveringBytes` | gf16/controller.cpp:191-203 | a part covers an input exactly if it holds one of its bytes |
| `Controller.HandBytes` | gf16/controller.cpp:200-208 | and what it is handed is exactly the bytes it holds |
| `Controller.Proc.Offer` | gf16/controller.cpp:200-212 | exactly the covering backends with room that are not marked as having the input receive it and are marked |
| `Controller.Proc.Register` | gf16/controller.cpp:178-196 | a new reference has the covering backends counted |
| `Controller.Proc.BackendDone` | gf16/controller.cpp:181-189 | one completion: the count drops, and at zero the entry goes and its callback is called |
| `ControllerRuns.NobodyRefused` | gf16/controller.cpp:200-219 | everyone has the input exactly when nobody refused it |
| `ControllerRuns.RunKept` | gf16/controller.cpp:172-220 | the books are right after every run in which no reference is reused early |
| `ControllerRuns.ExactlyOnce` | gf16/controller.cpp:172-220 | over any such run of additions, refusals, resends and completions every backend whose part holds a byte of a settled input is handed it once and no other backend is; its callback is called at most once, and has been exactly when all covering backends, at least one, are done; no look-up fails |
| `ControllerRuns.EachByteOnce` | gf16/controller.cpp:172-220 | in a division, every byte of a settled input within the slice has gone out in one delivery, made once, to the backend whose part holds it, and no other byte has |
| `ControllerRuns.CoveredIff` | gf16/controller.cpp:191-195 | in a division of a non-empty slice some part covers an input exactly when it has a byte |
| `ControllerRuns.CalledIff` | gf16/controller.cpp:181-196 | so a settled and completed input's callback has been called exactly when it has a byte |
| `ControllerRuns.NotCovered` | gf16/controller.cpp:178-196 | an input beyond every part is accepted, goes to nobody, is never reported, and its entry stays |
| `ControllerRuns.CalledUnlessReused` | gf16/controller.cpp:175-189 | however a run goes on, an input in flight has its callback called by the time all are done with it exactly if no other input was added under its reference meanwhile |
| `ControllerRuns.ReusedReference` | gf16/controller.cpp:175-189 | otherwise its callback is lost, the new one's is called by the first completions of either, and as many look-ups fail as the new input has backends |
| `ControllerRuns.ReusedUnsettled` | gf16/controller.cpp:205-217 | reusing the reference of an input that some backends still refuse keeps the new one from those that took the old one, and hands the old one to them twice |
| `Controller.Proc.BackendBusy` | gf16/controller_cpu.cpp:317-329 | an input taken by a backend counts as pending, and waits unless its batch is handed over, which counts as an active area |
| `Controller.Proc.Flush` | gf16/controller.cpp:306-310 | every backend with inputs that wait has one more active area and one more message pending, and none waits any more |
| `Controller.FlushedMeans` | gf16/controller.cpp:306-310 | as the specification of flush says backend by backend |
| `Controller.Proc.EndInput` | gf16/controller.cpp:312-325 | what waits is handed over; the callback is called at once exactly if nothing was active, pending or waiting anywhere, and otherwise kept with the end signalled |
| `Controller.EndStepMeans` | gf16/controller.cpp:312-325 | as the specification of endInput says in numbers |
| `Controller.Proc.NotifySent` | gf16/controller_cpu.cpp:259-267 | a backend reports to the controller only when the end was signalled and nothing of it is left, which is enough: the callback is called exactly when nothing is left anywhere |
| `Controller.Proc.NotifyProc` | gf16/controller_cpu.cpp:627-634 | a batch done with: likewise |
| `Controller.Proc.OnBackendProcess` | gf16/controller.cpp:404-418 | the finish callback is called when no backend has an active area or a pending message |
| `Controller.Proc.ProcessingFinished` | gf16/controller.cpp:420-427 | and the signal is taken back from every backend |
| `Controller.Proc.CallbackReturned` | gf16/controller.cpp:427-429 | when the callback returns, finishCb is cleared, whatever it is by then |
| `ControllerFinish.StepKept` | gf16/controller.cpp:312-429 | a step that calls the finish callback leaves no backend with an active area, a pending message or an input that waits |
| `ControllerFinish.FinishedOnce` | gf16/controller.cpp:312-429 | over any run, once all is empty and no callback is running, the callbacks called are those of all endInputs, in order and once each, exactly when none was made from within a callback to wait for backends |
| `ControllerFinish.NestedLost` | gf16/controller.cpp:420-429 | one that is: a run with one such endInput ends with everything empty and its callback never called |
| `ControllerFinish.FinishedSoFar` | gf16/controller.cpp:312-429 | before, they are those of all but the one that waits, and some backend is at work |
| `Allocation.FirstAligned` | gf16/controller.cpp:42-84 | in a proper division backend 0's boundaries are those of others, which is why its alignment need not be tested |
| `Allocation.Gap` | gf16/controller.cpp:50-79 | when no part left touches what was found, the division has a gap |
| `Allocation.AllChosen` | gf16/controller.cpp:82-83 | once all parts are chosen they tile the slice exactly when they fill it |
| `Allocation.Slices.CheckBackendAllocation` | gf16/controller.cpp:42-84 | terminates, and is true exactly for the divisions that Passes describes by offsets, sizes and the order of the backends |
| `Allocation.NonEmptyPasses` | gf16/controller.cpp:42-84 | those without empty parts pass exactly when they tile the slice with even boundaries inside |
| `Allocation.StepLeft` | gf16/controller.cpp:56-60 | as the range grows, empty parts at the end it leaves behind have been examined in time or will fail the test |
| `Allocation.OverlapFails` | gf16/controller.cpp:56-69 | whatever sets hasOverlap is an overlap, an empty part examined too late, or a part that begins where backend 0 is empty |
| `Allocation.EmptyFirstRefused` | gf16/controller.cpp:42-84 | [empty, the whole slice] is refused |
| `Allocation.EmptyOddRefused` | gf16/controller.cpp:77-78 | so is an empty part at the odd end of a slice |
| `Allocation.EmptyLateRefused` | gf16/controller.cpp:66-68 | and one examined after the range has grown past it, while the same parts in another order pass |
| `Allocation.EmptyFirstPasses` | gf16/controller.cpp:56-65 | an empty backend 0 passes when what ends there comes before what begins there |
| `Allocation.Slices.SetCurrentSliceSize` | gf16/controller.cpp:87-115 | without effect exactly for sizes above both the current size and all allocations; otherwise parts are handed out in the order of the backends, and those after the first that refuses are not told; a single backend takes any size, its allocation growing to it |
| `Allocation.Slices.SetCurrentParts` | gf16/controller.cpp:117-130 | the form with explicit parts answers what the check answers, whichever backends refuse |
| `Allocation.SpreadTiles` | gf16/controller.cpp:106-114 | those parts tile the new slice exactly when it fits the allocations |
| `Allocation.AcceptedSuffices` | gf16/controller.cpp:25-39 | which an accepted division guarantees for its size and all smaller ones |
| `Allocation.SpreadEven` | gf16/controller.cpp:106-114 | they split no word exactly when the allocations ending inside the slice end evenly |
| `Allocation.ReorderedSplitsWord` | gf16/controller.cpp:106-114 | an accepted division of which the same slice size, set again, splits a word |
| `CksumCopy.DoCopy` | gf16/gf16_cksum_base.h:22-38 | the bytes are copied and run through the checksum, a misaligned tail included |
| `CksumCopy.Copy` | gf16/gf16_cksum_base.h:41-55 | leaves the source, zeroes up to the slice length, and the checksum of both, for any lengths |
| `CksumCopy.CopyCheck` | gf16/gf16_cksum_base.h:57-68 | copies back, and accepts exactly when the stored checksum is that of the data |
| `CksumCopy.ZeroRun` | gf16/gf16_cksum_base.h:47-53 | the checksum over the padding in one multiplication |
| `CksumCopy.UngroupBytes` | gf16/gf16_checksum_generic.h:92-131 | every second word of a stretch, from the first or the second one on |
| `CksumCopy.Grp2Finish` | gf16/gf16_cksum_base.h:70-114 | the same for one of two slices whose words alternate |
| `CksumCopy.CombinationAccepted` | gf16/gf16_cksum_base.h:41-68 | any linear combination of copies is accepted, and its data is the combination of the zero-padded sources |
| `CksumCopy.GroupedAccepted` | gf16/gf16_cksum_base.h:70-114 | also when it was computed with two outputs' words alternating |
| `Swar.MultiMul2Lanes` | gf16/gf16_checksum_generic.h:25-39 | on machines of all three widths every 16-bit lane is doubled in the field, whatever the others hold |
| `ChecksumGeneric.ChecksumBlocku` | gf16/gf16_checksum_generic.h:41-90 | on all three, a block of any number of bytes is folded into the register, a tail as if zero-filled, and each lane makes one step of the checksum |
| `ChecksumGeneric.FoldedChange` | gf16/gf16_checksum_generic.h:41-90 | folding: a word changed changes its lane by as much, and no other lane |
| `ChecksumGeneric.FoldedNone` | gf16/gf16_checksum_generic.h:41-90 | and of zeroes it is zero |
| `ChecksumGeneric.TopAfter` | gf16/gf16_checksum_generic.h:133-165 | after n shifts the top bit is bit 15 - n |
| `ChecksumGeneric.ChecksumExp` | gf16/gf16_checksum_generic.h:133-165 | on all three, the loop from the top bit down multiplies every lane by the coefficient |
| `Swar.DoubleX4` | gf16/gf16_lookup.c:7-12 | with four equal lanes the macro doubles each: what one lane carries into the next is cancelled |
| `Swar.DoubleX2` | gf16/gf16_lookup.c:6 | likewise with two |
| `Swar.DoubleLowerX2` | gf16/gf16_lookup.c:23-28 | likewise when only lanes 0 and 2 are used |
| `Swar.DoubleX2Unequal` | gf16/gf16_lookup.c:6 | and not without equal lanes |
| `Lookup.EntryAdd` | gf16/gf16_lookup.c:134-139 | entry t + 2^n is entry t plus the coefficient doubled n times |
| `Lookup.CalcTable64` | gf16/gf16_lookup.c:127-149 | the 64-bit builder makes the table of products with low and with high bytes |
| `Lookup.CalcTable32` | gf16/gf16_lookup.c:150-168 | so does the 32-bit one |
| `Lookup.CalcTable16` | gf16/gf16_lookup.c:169-180 | so does the 16-bit one |
| `Lookup.SameTable` | gf16/gf16_lookup.c:124-181 | so the three tables are identical |
| `Lookup.LookedUp` | gf16/gf16_lookup.c:230-235 | two lookups multiply any word |
| `Lookup.LookupMuladd` | gf16/gf16_lookup.c:220-251 | on machines of all three widths a buffer receives, word by word, coefficient times source |
| `Lookup.LookupPowadd` | gf16/gf16_lookup.c:254-303 | on all three, output k receives coefficient^(k+1) times the source, for any number of outputs from one up |
| `Lookup2.CalcTables64` | gf16/gf16_lookup.c:488-514 | the 64-bit builder of the two packed tables |
| `Lookup2.CalcTables32` | gf16/gf16_lookup.c:515-539 | and the 32-bit one, with the same specification |
| `Lookup2.SameTables` | gf16/gf16_lookup.c:487-540 | which determines both tables |
| `Lookup2.OuterIndices` | gf16/gf16_lookup.c:641-650 | after the bit rearrangement the outer fields are the low eleven bits of the two words |
| `Lookup2.MiddleIndex` | gf16/gf16_lookup.c:641-650 | and the middle field holds the top five bits of both |
| `Lookup2.LookedMultiplies` | gf16/gf16_lookup.c:558-566 | so three lookups multiply both words |
| `Lookup2.PrepareRegion` | gf16/gf16_lookup.c:641-655 | a region is rearranged 64 or 32 bits at a time, its short end zero-filled to the byte |
| `Lookup2.MuladdMultiPacked` | gf16/gf16_lookup.c:543-584 | any number of prepared regions, on either machine: every word receives the combination of the sources |
| `Lookup2.RepeatedMuladd` | gf16/gf16_lookup.c:220-251 | the plain kernel run once per source has the same specification, on any machine |
| `Lookup2.SameDestination` | gf16/gf16_lookup.c:543-584 | which determines the destination |
| `Clmul.BarrettIsShift` | gf16/gf16_clmul_rvv.h:62-75 | multiplying by 0x1111a and 0x100b reduces what is above bit 16, for products of at most 31 bits |
| `Clmul.NeonIsShift` | gf16/gf16_clmul_neon.h:52-101 | the byte-wise steps do what those two multiplications do |
| `Clmul.NeonIsKaratsuba` | gf16/gf16_clmul_neon.h:52-101 | the reduction of the three accumulated parts is low + x^8 (mid + low + high) + x^16 high in the field |
| `Clmul.PmullIsMul` | gf16/gf16_clmul_neon_base.h:10-35 | the carry-less product of two bytes needs no reduction |
| `Clmul.KaratsubaProduct` | gf16/gf16_clmul_neon_base.h:10-35 | three byte products of one source stand for its field product |
| `Clmul.KaratsubaLinear` | gf16/gf16_clmul_neon_base.h:37-46 | and sums of them for the sum of the products |
| `Clmul.MuladdWord` | gf16/gf16_clmul_neon_base.h:56-132 | any number of unreduced products, reduced once and added: the combination of the sources |
| `Clmul.RvvIsReduction` | gf16/gf16_clmul_rvv.h:62-97 | each of the four products in two registers is reduced on its own; the packed lanes do not disturb each other |
| `Clmul.ProductIsMul` | gf16/gf16_clmul_rvv.h:62-97 | a 31-bit carry-less product reduced once is the field product |
| `Clmul.SumReduced` | gf16/gf16_clmul_rvv.h:62-97 | so is the XOR of any number of them, which also stays within the 31 bits the reduction needs |
| `BitDep.ApplyDouble` | gf16/gf16_bitdep_init_sse2.h:105-115 | rotating the rows and XORing the polynomial is doubling, for every polynomial |
| `BitDep.HornerFour` | gf16/gf16_bitdep_init_sse2.h:104-121 | three such steps with the bits of a nibble added give the product by the nibble |
| `BitDep.InitEntry` | gf16/gf16_bitdep_init_sse2.h:100-121 | which the first inner loop computes |
| `BitDep.InitTable` | gf16/gf16_bitdep_init_sse2.h:83-138 | entry (val, j) is the matrix of val * 16^j, for every polynomial |
| `BitDep.DepMaskIsProduct` | gf16/gf16_xor_avx512.c:375-384 | XORing the four entries a coefficient selects gives its multiplication matrix, for every polynomial |
| `BitDep.WordOfDouble` | gf16/gf16_bitdep_init_sse2.h:86-95 | with 0x100B, doubling bit by bit is doubling the word |
| `BitDep.DepMaskMultiplies` | gf16/gf16_xor_avx512.c:375-384 | and the matrix multiplies words in the field |
| `BitDep.RowsNotEmpty` | gf16/gf16_xor_avx512.c:466-467 | every row of a non-zero coefficient has a member, because multiplication by it can be undone |
| `XorProgram.CommonNeverSingle` | gf16/gf16_xor_avx512.c:391-397 | a common queue has at least two members |
| `XorProgram.QueuesAreRow` | gf16/gf16_xor_avx512.c:387-400 | a row is the sum of its own queue and the common queue |
| `XorProgram.QueueNotEmpty` | gf16/gf16_xor_avx512.c:466-467 | without a common queue neither queue is empty |
| `XorProgram.MainRuns` | gf16/gf16_xor_avx512.c:64-124 | the instruction block sums the queue into its register, for odd and even lengths |
| `XorProgram.EmitMuladd` | gf16/gf16_xor_avx512.c:449-487 | the code emitted for one output adds its queue and the common queue to it, patched last instruction included |
| `XorProgram.EmitMul` | gf16/gf16_xor_avx512.c:507-548 | or stores them, in the other mode |
| `XorProgram.WritePair` | gf16/gf16_xor_avx512.c:429-491 | one round of the loop computes outputs 2 * bit and 2 * bit + 1 and touches nothing else |
| `XorProgram.WriteInit` | gf16/gf16_xor_avx512.c:18-28 | the inputs' registers are loaded ahead of it |
| `XorProgram.WriteJit` | gf16/gf16_xor_avx512.c:371-550 | the whole program computes every row, for planes of any length |
| `XorProgram.WrittenMultiplies` | gf16/gf16_xor_avx512.c:371-550 | read word by word, that is the field product |
| `XorProgram.XorJitMul` | gf16/gf16_xor_avx512.c:371-550 | for any non-zero coefficient, the program multiplies every word of a buffer by it, or adds the product |

## Left out

* Big-endian machines, the builds without libuv (futures), thread-count changes during a run, `discardOutput`, `fillInput` and `dummyInput`.
* OpenCL: its ring of staging areas repeats the CPU one, and the rest is generated source text.
* x86 instruction encoding and where generated code is stored: the XOR program is a list of instructions.  The
  variant for several sources (`xor_write_jit_avx512_multi`) and the memory-operand form of the first plane are not modelled.
* The other SIMD kernels (shuffle, affine, SVE, VBMI, BMM, AVX2): the same algebra again.  Of the RISC-V kernel only the
  reduction is modelled, not the loop that multiplies and accumulates.
* `calc_3table` and `gf16_lookup3_muladd` on unprepared sources: the two-table kernel with one table split in two.
* `GF16_MULTBY_TWO_UPPER` and `GF16_MULTBY_TWO_UPPER_X2`, used by `calc_3table` only.
* The packing functions without checksums, which are the same loops with the checksum steps removed.
* Slices without data blocks, and runs without outputs: `run_kernel` returns without releasing its area when there are none.
* Blocks longer than their checksum: `ChecksumBlocku` folds them, but the packed buffer's theorems take a checksum as long as its block.
* Allocation, alignment and freeing; prefetching beyond its having no effect.
* The table of reciprocals.  Coefficients are given to the scheduler, not computed from exponents; `Coefficients` says what
  they are.  An output with exponent 0 has coefficient 1 in the model and is added without multiplying in the code.
* controller_cpu.cpp computes the split of outputs with floating point; the model rounds the exact quotient half up.
- WorkSplit.BoundStep: about the exact quotient rounded half up, not the single-precision product.
- WorkSplit.BoundMonotone: likewise.
- WorkSplit.BoundEnds: likewise.
* Pointers moved back by partOffset are modelled as offsets from the start of the whole slice.
* In the scheduler an input is one block per chunk and it stands for all of them; that the chunk's addresses and lengths are
  right is proved in `WorkSplit` and `EndToEnd`, and `PackedRuns` runs the same steps on the buffers themselves, a round of a
  request being one step.
  Tasks carry the number of their batch for the proof.  A request's countdown and its notification are one step.  Each queue
  is a FIFO, and memory is sequentially consistent, which the queues' and the countdown's ordering provide.
* A caller of `_addInput` is taken to resend an input with the size it had; what a failed look-up of an entry then does is
  undefined in the code, and only counted here.  Of callbacks, only finish callbacks are allowed to call the controller again.
* Progress reports to the caller, and what `getOutput` reports for slices that no backend has worked on.
* Changes of the division while inputs are being added: `Controller` has one division for a run.
