# Verification of the proof-of-capacity plot pipeline

A Dafny model of the plot pipeline: hashing, nonce generation, plot layout, plotting with its resumable
files, compression by XOR, mining and validation of proofs, the scheduler that shares the disks between
chains, the buffers of a mining round, the submission filter, and the deadline arithmetic.

`dafny verify dfyconfig.toml` checks the whole project.

## What is modelled

Each file is one module.

| file | what it models |
|---|---|
| Words | 32-bit words with wrapping arithmetic, rotations and XOR, and their laws; bytes as numbers |
| MachineWords, MachineShabal | the same words as bit vectors with the operations of the machine, and the hash on them |
| KnownAnswers | where the initial values come from, and the digest of the repository's test message |
| KeyedPermutation | the keyed permutation P of Shabal: the 48 straight-line updates, the index-formula loop, and the inverse |
| Shabal | Shabal-256 as a specification over blocks and over padded bytes, and the block loop in place |
| Lanes | the vector hash over registers of any number of lanes (4, 8 and 16 in the repository) |
| Quality, BestQuality, Cpu | the short hash of 96 bytes, its restructured vector form, the search for the best quality |
| PlotChain, PlotLanes | the backward hash chain of a nonce, scalar and interleaved |
| Layout, Nonces | the shuffled layout of plots, scatter and extraction, generation of nonces into a cache |
| Scoops, ProofQuality | scoops at a compression level, the law that lifts levels, the quality of a proof |
| Plotter | the CPU plotter's inner loops: hashing a batch on a thread pool, folding it into a warp of a level |
| PlotWriter, Directory | plot files while they are written, their resume marker, the writer thread, errors and kills |
| PlotScheduler, PlotSessions | the plotter's scheduling thread over several output paths, and whole sessions |
| PlotAndMine | from an empty directory to accepted proofs; the check of a complete plot |
| BatchValidation | validation of a batch by threads that share accumulators |
| Compression, Plots, Hasher | compression in place, scanning of plot files with interrupts, mined nonces |
| Resumption | scans that are paused and resumed, any number of times: what they deliver and what they miss |
| MinedProofs | from the disk to the validator: what mining submits, batch validation accepts |
| BufferPool | readers, collector and hashers passing buffers around |
| Mining | what a chain announces about a block |
| Scheduler, Overtaking, SavedProgress | the priority queue of chains, preemption, pause and resumption; when a paused block overwrites a newer one; what becomes of saved progress |
| Submission | the filter of mined nonces |
| TimeBending | cube root and fixed-point scaling of the deadline |

Code that changes state is modelled by methods over arrays and objects, each proved against a
specification function; what the repository promises is then proved of the specification.
Protocols (threads of the batch validation, buffers, scheduler) are step relations, with
invariants proved over all runs; the scheduler is also a class whose methods carry out the steps.
Registers are sequences of words of arbitrary width, so every SIMD file is an instance.
CPU features are arbitrary booleans; interrupts, read errors and thread schedules are arbitrary.

## The main results

* The words of the specification, which are integers, are the words of the machine: every operation is the
  one on 32 bits (`MachineWords.RotationsOfMachine`, `MachineWords.XorOfMachine`), and so is a whole round of
  the hash (`MachineShabal.RoundOfMachine`). Computed that way, two rounds from the zero state give the initial
  values, and the test message of the repository has the digest its test expects
  (`KnownAnswers.InitialValues`, `KnownAnswers.TestMessage`).
* P is a bijection; the vector hashes, the restructured short hash and all vector generators and
  searches equal the scalar ones in every lane; the hand-built termination blocks are the ordinary
  padding, so every slot of a nonce is textbook Shabal-256 (`KeyedPermutation.PBijective`,
  `Lanes.VShabal256`, `Quality.VShabal256Lite`, `PlotChain.ChainIsTextbook`, `PlotChain.NonceIsTextbook`,
  `Nonces.GenerateAndExtractScoopsVector`).
* Scatter and extraction agree cell by cell, and the scatter is a bijection (`Layout.ScatteredScoop`,
  `Layout.ShuffleForth`, `Layout.ShuffleBack`).
* Batch validation agrees with the scalar one under every interleaving (`BatchValidation.ValidateProofs`),
  and a mined nonce validates if all that it is folded from is genuine, for every number of on-the-fly steps
  from level 1 on (`Hasher.MineDisk`). Of what is mined from a disk, exactly what validates is accepted, and from
  genuine files that is all (`MinedProofs.MineAndValidate`).
* The passes of the plotter leave warps of the level (`Plotter.WarpDone`). Wherever a write is cut off, by an
  error or a kill, the marker counts no warp that is not there (`PlotWriter.CutOffIsSound`), in every session
  on any number of paths. The rounds that an undisturbed session needs to come to its end are counted exactly;
  then every path has been sent exactly the files asked for, and each of them is a plot
  (`PlotScheduler.RunThread`, `PlotSessions.Session`, `Directory.Directory.Serve`).
* From empty directories, through any number of sessions cut off anywhere, to mining and validation: for a
  block of any scoop but the last, every submission is accepted; for the last scoop, every one but those from
  the last nonce of a plot (`PlotAndMine.PlotThenMine`).
* A scan that nothing disturbs delivers every complete group of warps once (`Resumption.ScanFromStart`). One
  that is paused and resumed, any number of times, delivers none twice, and misses exactly the buffers that
  were being filled, and after a read error the rest of the file (`Resumption.AtMostOnce`,
  `Resumption.DeliveredOrMissed`).
* The scheduler never stalls, always preempts, and never lets a paused block replace a newer one as
  long as no paused block waits at the end of a round (`Scheduler.EveryRunIsSound`,
  `Scheduler.PausedNeverOverwrites`). Whether one that waits can still do so is decided exactly
  (`Overtaking.OvertakenExactly`). In every run, saved progress stays with its chain until the chain has scanned
  on from it, gets a newer block, or is queued already when it comes back, and no chain scans on from any
  other progress (`SavedProgress.KeptUntilDropped`, `SavedProgress.ProgressWasSaved`).
* Buffers are conserved, no round comes to a standstill, and the filter forwards exactly the improving
  qualities (`BufferPool.EveryRunConserves`, `BufferPool.NoDeadlock`, `Submission.LastIsLeast`).
* The deadline is the only number with the bounds that root, scale and rounding give in products
  (`TimeBending.ScaleIs`, `TimeBending.DeadlineIs`). It is monotone, and all deadlines of a block time fit 64
  bits exactly up to a block time of 0xd8062b7e664fb45a (`TimeBending.DeadlineMonotone`, `TimeBending.FitsExactly`).

## Where the code differs from what one would expect

The model follows the code; each point is a lemma.

* The marker of the resume point lies in the last eight bytes of a plot file. It is written once more after
  the last warp and is never taken back, although the message for a missing marker says "already completed".
  So every finished plot ends with the marker instead of the last eight bytes of the last scoop of its last
  nonce. All its other scoops are genuine, and this one is if and only if it happens to end in the marker
  (`PlotWriter.FinishedScoop`, `PlotWriter.MarkerCosts`, `PlotAndMine.FinishedIsGenuine`). The verifier in
  complete mode fails there, at the very end (`PlotAndMine.CheckComplete`). Mining meets it in blocks of
  scoop 4095 only, in the last nonce of a file, and with on-the-fly compression only if the warps of the file
  come out even (`PlotAndMine.FinishedGroup`, `PlotAndMine.MinePlotted`).
* A plotter that is killed after the end of the last row and before the marker is written once more leaves a
  file without a marker, which is plotted again from its start; any other kill leaves the marker as it was
  (`PlotWriter.CutOffMarker`).
* With files of 0 warps, which the command line lets through, the scheduling thread of the plotter never comes
  to its end (`PlotScheduler.RunThread`).
* The size check of `generate_nonces` counts the column offset in bytes, and its byte count wraps at 64 bits. It
  lets through requests that do not fit, exactly for offsets other than 0 and for byte counts beyond 64 bits
  (`Nonces.GuardSuffices`, `Nonces.GuardWraps`). The nonce of a column that is not there overwrites another one,
  a scoop further on, and the call succeeds (`Nonces.GuardTooWeak`, `Nonces.SpreadLands`). Addresses wrap too:
  when a scoop comes to the last one there is, the bounds check of the unchecked copy wraps to 0 and its last
  cell is written outside the cache (`Layout.EscapesExactly`, `Nonces.LastColumnLeaves`).
* A round of a miner without disks never ends: the collector counts only after a message
  (`BufferPool.NoReadersNoEnd`).
* A read cache of 0 warps passes the test for powers of two (`Plots.PowerOfTwoTest`).
* On data that ends inside a batch the vector search skips the whole batch where the scalar one takes
  what is there (`BestQuality.VectorCountIsScalar`, `BestQuality.ShortDataDiffers`).
* XOR of neighbouring warps is the next level from level 1 up only; at level 0 the odd nonce takes part
  with scoop and nonce exchanged, so that after any number of steps one nonce in 4096 is right, the one
  whose number is the scoop (`Scoops.LevelZeroExactly`). The results about on-the-fly compression
  therefore ask for plots of level 1 or higher; nothing in the code excludes level 0.
* An interrupted reader moves on past warps it gives back unhashed, so a resumed scan misses them. The
  missed warps are those of the buffer being filled, which follows from the saved progress, the size of the file,
  the size of the buffer and the number of steps; there are none if and only if the whole file had been read
  and its last buffer holds too few warps for one compressed warp (`Resumption.MissedByPause`). Without
  compression every pause loses warps (`Resumption.EveryPlainPauseLoses`, `Resumption.FirstBufferLost`).
* A round that ends while a paused block is waiting can lose the newest block of a chain
  (`Scheduler.EarlyEndLosesABlock`). As a condition on runs this stays one way: the paused block may still be
  handled before a newer block of its chain arrives, and then nothing is lost. As a condition on states it is
  exact: a waiting paused block can come to replace a newer one if and only if a newer block of its
  chain is known or waiting in front of it and the triggers in front of it are enough to take its chain
  from the queue (`Overtaking.OvertakenExactly`).
* For block times above 0xd8062b7e664fb45a the deadline of the largest quality exceeds 64 bits and its low
  digit is returned (`TimeBending.FitsExactly`, `TimeBending.HugeBlockTimeWraps`).
* From level 64 on the scalar calculation and the batch validation fold different numbers of nonces: the power
  of two wraps to 0, the shift takes its distance modulo 64 (`ProofQuality.CountsAgree`).
* The comments in `noncegen_32.rs` number the rounds from 1 and call the second loop rounds 128 to 8192;
  the first loop already writes slot 128.

## Model

| member | source | states |
|---|---|---|
| `Words.PlusMinus` | pocx_hashlib/src/shabal256_lite_avx2.rs:917-935 | wrapping subtraction undoes wrapping addition and the other way round, which the restructured final rounds rely on |
| `Words.TripleThird` | pocx_hashlib/src/shabal256.rs:378-404 | multiplication by 3 modulo 2^32 has the inverse 0xAAAAAAAB, on both sides |
| `Words.RotateBack` | pocx_hashlib/src/shabal256.rs:378-404 | each left rotation of the permutation is undone by a right rotation and the other way round: one word is the other rotated left if and only if the other is it rotated right |
| `Words.VectorMultiples` | pocx_hashlib/src/shabal256_avx2.rs:267-302 | the multiplications by 5 and 3 that the vector code does with shifts and additions are the wrapping multiplications |
| `Words.VectorNot` | pocx_hashlib/src/shabal256_avx2.rs:267-302 | complement by XOR with all ones is the bitwise complement |
| `Words.WordRoundTrip` | pocx_hashlib/src/shabal256.rs:43-90 | four little-endian bytes of a word give the word back |
| `Words.BytesRoundTrip` | pocx_hashlib/src/shabal256.rs:43-90 | reading and rewriting four bytes as a word loses nothing |
| `Words.WordIsLittleEndian` | pocx_hashlib/src/shabal256.rs:43-90 | a word in memory is its four bytes as a number, least significant byte first |
| `MachineWords.EveryWord` | pocx_hashlib/src/shabal256.rs:378-404 | every word is the number of some 32 bits, so what holds of all bit vectors holds of all words |
| `MachineWords.XorOfMachine` | pocx_hashlib/src/shabal256.rs:378-404 | XOR of words is XOR of their bits |
| `MachineWords.AndNotOfMachine` | pocx_hashlib/src/shabal256.rs:378-404 | the non-linear part of a step is the conjunction with the complement, in this order |
| `MachineWords.NotOfMachine` | pocx_hashlib/src/shabal256.rs:378-404 | the complement of a word is that of its bits |
| `MachineWords.PlusOfMachine` | pocx_hashlib/src/shabal256.rs:138-142 | addition of words is the wrapping addition of the machine |
| `MachineWords.MinusOfMachine` | pocx_hashlib/src/shabal256.rs:199-203 | and subtraction the wrapping subtraction |
| `MachineWords.TripleOfMachine` | pocx_hashlib/src/shabal256.rs:378-404 | multiplication by 3 is the wrapping one of the machine |
| `MachineWords.FivefoldOfMachine` | pocx_hashlib/src/shabal256.rs:378-404 | multiplication by 5 is the wrapping one of the machine |
| `MachineWords.RotationsOfMachine` | pocx_hashlib/src/shabal256.rs:378-404 | the rotations by 1, 15 and 17 are those of the machine, to the left |
| `KeyedPermutation.PermElt` | pocx_hashlib/src/shabal256.rs:378-404 | one in-place element update is one step of the index-formula permutation, given the indices the straight-line code passes |
| `KeyedPermutation.Perm` | pocx_hashlib/src/shabal256.rs:407-458 | the 48 straight-line updates are the 48 steps of the index-formula loop |
| `KeyedPermutation.ClosingAdditions` | pocx_hashlib/src/shabal256.rs:266-319 | the written-out additions of three words of C to each word of A equal the 36-step loop that adds them |
| `KeyedPermutation.ApplyP` | pocx_hashlib/src/shabal256.rs:266-319 | rotation of B, 48 steps and closing additions on the arrays compute the keyed permutation P |
| `KeyedPermutation.EltInverse` | pocx_hashlib/src/shabal256.rs:378-404 | one step has an explicit inverse, on both sides |
| `KeyedPermutation.StepsInverse` | pocx_hashlib/src/shabal256.rs:407-458 | any number of steps has an explicit inverse, on both sides |
| `KeyedPermutation.AddCInverse` | pocx_hashlib/src/shabal256.rs:266-319 | the additions of C can be undone |
| `KeyedPermutation.PBijective` | pocx_hashlib/src/shabal256.rs:266-319 | for every C and message block, P is a bijection on (A, B) with an explicit inverse |
| `Shabal.HashIsShabal256` | pocx_hashlib/src/shabal256.rs:43-90 | hashing 32-bit words with padding word 0x80 is Shabal-256 of the bytes with the ordinary 0x80 padding |
| `Shabal.InputBlockAdd` | pocx_hashlib/src/shabal256.rs:138-142 | adds the block to B in place, word by word, wrapping |
| `Shabal.InputBlockSub` | pocx_hashlib/src/shabal256.rs:199-203 | subtracts the block from C in place, word by word, wrapping |
| `Shabal.XorW` | pocx_hashlib/src/shabal256.rs:260-263 | XORs the two halves of the block counter into A |
| `Shabal.IncrW` | pocx_hashlib/src/shabal256.rs:520-525 | the two 32-bit halves count blocks with carry |
| `Shabal.MessageRound` | pocx_hashlib/src/shabal256.rs:43-90 | add, count, permute, subtract and swap are one round of the specification |
| `Shabal.Shabal256` | pocx_hashlib/src/shabal256.rs:43-90 | the block loop with an optional block before the termination block is the digest of data, pre-termination and termination blocks |
| `Shabal.RoundAfterSub` | pocx_hashlib/src/shabal256.rs:93-135 | a round whose block has been subtracted beforehand needs no addition |
| `MachineShabal.StepOfMachine` | pocx_hashlib/src/shabal256.rs:378-404 | one step on shifting registers of bits is one step of the index-formula permutation, at any position |
| `MachineShabal.PassOfMachine` | pocx_hashlib/src/shabal256.rs:407-458 | sixteen written-out steps on bits, with C read downwards from word 8, are sixteen steps of the permutation |
| `MachineShabal.RoundOfMachine` | pocx_hashlib/src/shabal256.rs:43-90 | for every state, counter and block, a round on the bits of the machine is a round of the specification |
| `KnownAnswers.InitialValues` | pocx_hashlib/src/shabal256.rs:22-36 | the initial values of A, B and C are what two rounds make of the zero state, on the numbers from 256 and from 272, with the counter at -1 and 0 |
| `KnownAnswers.TestDigest` | pocx_hashlib/src/shabal256.rs:542-569 | the digest of the two blocks of the test message, in words |
| `KnownAnswers.TestMessage` | pocx_hashlib/src/shabal256.rs:535-569 | Shabal-256 of the 102 bytes of the test message, padded, is the digest the test expects, byte for byte |
| `Lanes.VMixALane` | pocx_hashlib/src/shabal256_avx2.rs:267-302 | the vector form of the A update is, lane by lane, the scalar one |
| `Lanes.VMixBLane` | pocx_hashlib/src/shabal256_avx2.rs:267-302 | the vector form of the B update is, lane by lane, the scalar one |
| `Lanes.VPermElt` | pocx_hashlib/src/shabal256_avx2.rs:267-302 | one vector step is the scalar step in every lane, for every width |
| `Lanes.VApplyP` | pocx_hashlib/src/shabal256_avx2.rs:187-264 | the vector permutation is P in every lane, for every width |
| `Lanes.VMessageRound` | pocx_hashlib/src/shabal256_avx2.rs:94-184 | a vector round is a scalar round in every lane |
| `Lanes.VShabal256` | pocx_hashlib/src/shabal256_avx2.rs:55-184 | every lane of the vector hash is the scalar digest of the data, pre-termination and termination of that lane |
| `Quality.LiteIsPadding` | pocx_hashlib/src/shabal256.rs:93-135 | the fixed termination words of the short hash are the ordinary padding of a 96-byte message |
| `Quality.Shabal256Lite` | pocx_hashlib/src/shabal256.rs:93-135 | the scalar short hash is the first 64 bits of Shabal-256 of generation signature and scoop |
| `Quality.QualityIsLittleEndian` | pocx_hashlib/src/shabal256.rs:93-135 | the quality is the first eight bytes of textbook Shabal-256 of signature and scoop as a little-endian number |
| `Quality.DecrW` | pocx_hashlib/src/shabal256_lite_avx2.rs:917-935 | taking the block counter back undoes the increment, borrow included |
| `Quality.QualityRound` | pocx_hashlib/src/shabal256_lite_avx2.rs:182-936 | the uniform round that subtracts, adds back and undoes the counter is a round of the specification in every lane |
| `Quality.PrepareMessageRound1` | pocx_hashlib/src/shabal256_lite_avx2.rs:139-158 | every lane gets the generation signature followed by the first half of its own scoop |
| `Quality.PrepareMessageTermination` | pocx_hashlib/src/shabal256_lite_avx2.rs:160-178 | every lane gets the second half of its own scoop followed by the padding |
| `Quality.VShabal256Lite` | pocx_hashlib/src/shabal256_lite_avx2.rs:30-136 | every lane of the five uniform rounds returns the quality the scalar short hash returns |
| `BestQuality.BestIsFirstMinimum` | pocx_hashlib/src/quality_32.rs:35-59 | the running best is a minimum of all qualities seen, at the first index that has it; index 0 if none is below the maximum |
| `BestQuality.FindBestQuality32` | pocx_hashlib/src/quality_32.rs:35-59 | the scalar search returns the best of the scoops that are there |
| `BestQuality.SearchBatch` | pocx_hashlib/src/quality_256.rs:37-97 | one vector batch carries the running best on over its scoops |
| `BestQuality.FindBestQualityVector` | pocx_hashlib/src/quality_256.rs:37-97 | batches and remainder together return the best of the scoops the vector search looks at, for every width |
| `BestQuality.VectorCountIsScalar` | pocx_hashlib/src/quality_256.rs:37-97 | the vector search looks at the same scoops as the scalar one if and only if the data does not end inside a whole batch |
| `BestQuality.ShortDataDiffers` | pocx_hashlib/src/quality_256.rs:37-97 | on shorter data the two differ: a batch that does not fit is skipped whole |
| `BestQuality.FindBestQuality` | pocx_hashlib/src/lib.rs:324-339 | whatever the CPU offers, data of the announced length gives the minimum quality and its first index |
| `Cpu.Features.Width` | pocx_hashlib/src/batch_validation.rs:268-287 | the widest of 16, 8, 4 and 1 lanes that the CPU offers: 16 with avx512f, 8 with avx2, 4 with avx or sse2 |
| `PlotChain.FillIsChain` | pocx_hashlib/src/noncegen_32.rs:110-131 | in a filled buffer every slot is the hash the chain prescribes for what lies behind it |
| `PlotChain.NumeralIs` | pocx_hashlib/src/noncegen_32.rs:85-93 | the eight bytes of a nonce number are the only eight that are the number, modulo 2^64, most significant byte first |
| `PlotChain.ChainIsTextbook` | pocx_hashlib/src/noncegen_32.rs:69-134 | every slot before the final XOR is textbook Shabal-256, 0x80 padding included, of the next 4096 bytes or, near the end, of all bytes written so far followed by seed, payload and the eight bytes that are the nonce number, most significant first |
| `PlotChain.NonceIsTextbook` | pocx_hashlib/src/noncegen_32.rs:133-139 | every word of a finished nonce is that word of the chain XORed with the word at its place in one textbook hash of the whole chain, seed, payload and nonce number |
| `PlotChain.EarlySlot` | pocx_hashlib/src/noncegen_32.rs:110-125 | the test on i modulo 64 picks between t1 and pt2 with t2 so that both hash the same padded message |
| `PlotChain.LateSlot` | pocx_hashlib/src/noncegen_32.rs:127-131 | 4096 bytes followed by t3 are the padded message |
| `PlotChain.FinalHash` | pocx_hashlib/src/noncegen_32.rs:133-134 | the final hash is over the whole buffer followed by seed, payload and nonce |
| `PlotChain.Terminations` | pocx_hashlib/src/noncegen_32.rs:69-93 | the hand-built blocks t1, t2 and t3 hold seed, payload, nonce and padding where the padded messages have them |
| `PlotChain.EarlyRounds` | pocx_hashlib/src/noncegen_32.rs:107-125 | the backward loop over the last 4096 bytes writes the first 128 slots of the chain |
| `PlotChain.LateRounds` | pocx_hashlib/src/noncegen_32.rs:127-131 | the second backward loop completes the chain |
| `PlotChain.XorInPlace` | pocx_hashlib/src/noncegen_32.rs:136-139 | every slot is XORed with the final hash, in place |
| `PlotChain.NonceBuffer` | pocx_hashlib/src/noncegen_32.rs:85-139 | the buffer of a nonce is the chain XORed with the final hash; what both are is PlotChain.ChainIsTextbook and PlotChain.NonceIsTextbook |
| `PlotLanes.VEarlyRounds` | pocx_hashlib/src/noncegen_batch_256.rs:127-142 | the interleaved backward loop writes the first 128 slots of every lane |
| `PlotLanes.VLateRounds` | pocx_hashlib/src/noncegen_batch_256.rs:144-153 | the second interleaved loop completes the chain of every lane |
| `PlotLanes.VXorInPlace` | pocx_hashlib/src/noncegen_batch_256.rs:158-169 | the chunked final XOR is the scalar one in every lane |
| `PlotLanes.VNonceBuffer` | pocx_hashlib/src/noncegen_batch_256.rs:107-169 | every lane of the interleaved buffer is the nonce of its own account, seed and number |
| `Layout.FlatLaneIsLane` | pocx_hashlib/src/noncegen_common.rs:40-76 | a lane read with a stride from flat memory is that lane of the registers |
| `Layout.ExtractScoopFromInterleaved` | pocx_hashlib/src/noncegen_common.rs:40-76 | the scoop extracted for a lane is forward slot 2s and reverse slot 2(4095-s)+1 of the nonce in that lane |
| `Layout.ScoopHalves` | pocx_hashlib/src/noncegen_common.rs:40-76 | a scoop is the first half of its own 64 bytes of the nonce and the second half of its mirror image's |
| `Layout.ScoopsOfScoops` | pocx_hashlib/src/noncegen_common.rs:40-76 | the rearrangement of a nonce into scoops undoes itself |
| `Layout.ShuffleForth` | pocx_hashlib/src/noncegen_common.rs:79-118 | every source cell goes to a cell of its own column inside the target, from which it can be computed back |
| `Layout.ShuffleBack` | pocx_hashlib/src/noncegen_common.rs:79-118 | every target cell of the written columns comes from exactly one source cell: the shuffle is a bijection |
| `Layout.UnpackShuffleScatter` | pocx_hashlib/src/noncegen_common.rs:79-118 | when the columns fit the bounds skip never fires and the target is the old one with the shuffled source in its columns; for any columns, wrapping addresses included, every source cell whose address the target has is there, every other cell is as before, and a cell is copied outside the target exactly if a scoop comes to the last address |
| `Layout.PlaceInjective` | pocx_hashlib/src/noncegen_common.rs:79-118 | no two source cells go to the same wrapping address, whether their columns are there or not |
| `Layout.SpreadScoop` | pocx_hashlib/src/noncegen_common.rs:79-118 | every scoop of a column, there or not, goes to the place that its wrapping address is, if the cache has it |
| `Layout.EscapesExactly` | pocx_hashlib/src/noncegen_common.rs:88-104 | the bounds check wraps for some cell if and only if row times columns plus column is one less than 2^58 modulo 2^58 for some scoop of the columns |
| `Layout.ScatteredScoop` | pocx_hashlib/src/noncegen_common.rs:40-118 | after the scatter, scoop s of column k0+l is what extraction returns for lane l and scoop s |
| `Layout.ScatteredElsewhere` | pocx_hashlib/src/noncegen_common.rs:79-118 | all cells outside the written columns are unchanged |
| `Nonces.PlottedScoop` | pocx_hashlib/src/noncegen_32.rs:85-142 | scoop s of column k of a plotted cache is scoop s of the nonce with the saturating number start+k |
| `Nonces.PlottedMore` | pocx_hashlib/src/lib.rs:408-501 | plotting i nonces and then j more from the saturated next number is plotting i+j |
| `Nonces.ScatteredIsPlotted` | pocx_hashlib/src/noncegen_256.rs:86-212 | scattering the lanes of a vector is plotting that many nonces |
| `Nonces.GenerateNonces32` | pocx_hashlib/src/noncegen_32.rs:33-144 | when its columns fit, the cache holds the requested nonces there and its old contents elsewhere; a cell is copied outside the cache exactly if one of the columns leads there |
| `Nonces.WithNoncesLane` | pocx_hashlib/src/noncegen_256.rs:86-103 | the nonce words written into the splattered blocks are the big-endian saturating number of each lane |
| `Nonces.GenerateNoncesVector` | pocx_hashlib/src/noncegen_256.rs:35-213 | the vector generator plots whole vectors: the count rounded up to the width |
| `Nonces.GuardTooWeak` | pocx_hashlib/src/lib.rs:408-420 | a one-nonce cache with a spare cell and column offset 1 passes the size check; the call succeeds and scoops 1 to 4095 of nonce 0 are overwritten by scoops 0 to 4094 of the new nonce |
| `Nonces.LastColumnLeaves` | pocx_hashlib/src/lib.rs:408-501 | column 2^64-1 of a one-nonce cache passes the size check; scoops 1 to 4095 land one place earlier and the last cell of scoop 0 outside the cache |
| `Nonces.GuardSuffices` | pocx_hashlib/src/lib.rs:408-420 | the size check implies that the columns fit, for caches of any size, if and only if the column offset is 0 and the byte count fits 64 bits; for caches of at most half the address space, also if none passes the check |
| `Nonces.GuardWraps` | pocx_hashlib/src/lib.rs:408-420 | 2^46 nonces at offset 0 pass the check for a cache of one nonce, because their byte count wraps to 0 |
| `Nonces.SpreadLands` | pocx_hashlib/src/lib.rs:408-501 | a nonce plotted to any column lands scoop by scoop where the wrapping address says |
| `Nonces.FittingPassesGuard` | pocx_hashlib/src/lib.rs:408-420 | a request whose columns fit always passes the size check |
| `Nonces.SplitNonces` | pocx_hashlib/src/lib.rs:426-500 | whole vectors plus scalar remainder write what one scalar call writes, for every width, count and start, saturating ones included |
| `Nonces.GenerateNonces` | pocx_hashlib/src/lib.rs:408-501 | the error exactly when the wrapping size check fails, and then nothing is written; on fitting columns the contents one scalar call gives, whatever the CPU offers, and nothing outside; a single nonce lands where its wrapping column says, and outside the cache exactly if that is the last address |
| `Nonces.GenerateAndExtractScoop32` | pocx_hashlib/src/noncegen_batch_32.rs:31-114 | returns the requested scoop of the nonce |
| `Nonces.PrepareLanes` | pocx_hashlib/src/noncegen_batch_256.rs:68-103 | lane by lane, the interleaved termination blocks are those of the account, seed and nonce of the lane |
| `Nonces.GenerateAndExtractScoopsVector` | pocx_hashlib/src/noncegen_batch_256.rs:35-177 | every lane returns what the scalar generator returns for the account, seed, nonce and scoop of that lane, for every width |
| `Scoops.AtLevelIsWarps` | pocx_hashlib/src/lib.rs:361-403 | from level 1 on, a compressed scoop is the XOR of one scoop of each of its uncompressed warps |
| `Scoops.LevelUp` | pocx_hashlib/src/lib.rs:361-403 | from level 1 on, the XOR of warps 2w and 2w+1 at level c is warp w at level c+1 |
| `Scoops.LevelZeroExactly` | pocx_hashlib/src/lib.rs:361-403 | for every number s >= 1 of steps, the XOR of 2^s warps of level 0 is level s, for all contents, if and only if scoop and nonce in warp are the same number |
| `Scoops.LevelZeroPair` | pocx_hashlib/src/lib.rs:361-403 | what level 1 is instead: the odd nonce takes part with scoop and nonce exchanged |
| `Scoops.LevelUpMany` | pocx_hashlib/src/lib.rs:361-403 | 2^s warps of level c XORed are one warp of level c+s |
| `ProofQuality.UnitNonceWraps` | pocx_hashlib/src/lib.rs:377-386 | the nonce number of a unit, each operation wrapping at 64 bits, is the exact number modulo 2^64 |
| `ProofQuality.NonceWraps` | pocx_hashlib/src/noncegen_32.rs:85-93 | a nonce number counts modulo 2^64, because it is hashed as eight bytes |
| `ProofQuality.LevelWraps` | pocx_hashlib/src/lib.rs:361-403 | a compressed nonce number counts modulo 2^64 too, at every level |
| `ProofQuality.CountsAgree` | pocx_hashlib/src/lib.rs:361-370 | the number of folded nonces as a power and as a shift, in 64 bits, agree if and only if the level is below 64; the power is then exact, and 0 from 64 on |
| `ProofQuality.GenerateScoop` | pocx_hashlib/src/lib.rs:361-403 | for every nonce number, wrapping or not, the loop over regenerated nonces returns the scoop at the compression level; from level 64 on the zero scoop |
| `ProofQuality.OneBlockMessage` | pocx_hashlib/src/lib.rs:304-319 | the hand-padded 64-byte block is Shabal-256 of signature and height |
| `ProofQuality.CalculateScoop` | pocx_hashlib/src/lib.rs:304-319 | the scoop number is the last two bytes, big-endian, modulo 4096, of textbook Shabal-256 of generation signature and the eight bytes that are the height, most significant first |
| `ProofQuality.ScoopNumberIs` | pocx_hashlib/src/lib.rs:304-319 | the scoop number is the whole digest as a big-endian number, modulo 4096 |
| `ProofQuality.CalculateQualityRaw` | pocx_hashlib/src/lib.rs:224-240 | the error exactly for a scoop number out of range, otherwise the quality of the scoop that GenerateScoop returns |
| `ProofQuality.CalculateQualityFromHeight` | pocx_hashlib/src/lib.rs:271-288 | the quality of the proof for the scoop number that height and signature select |
| `ProofQuality.CalculateBestQualityInRange` | pocx_hashlib/src/lib.rs:243-268 | the error exactly for an empty range, otherwise the lowest quality over the levels, attained by one of them |
| `BatchValidation.ExpandWorkUnits` | pocx_hashlib/src/batch_validation.rs:238-262 | 2^c units, c modulo 64, whose scoops XOR to the scoop of the proof at that level, although nonce numbers wrap |
| `BatchValidation.ProcessSingleScalar` | pocx_hashlib/src/batch_validation.rs:337-341 | one unit contributes its scoop to its own proof |
| `BatchValidation.ProcessBatchSimd` | pocx_hashlib/src/batch_validation.rs:343-409 | a vector of units contributes unit by unit what the scalar path contributes |
| `BatchValidation.ProcessWorkRange` | pocx_hashlib/src/batch_validation.rs:289-335 | whatever widths are available, each unit of the range contributes exactly once; none once the surrender flag is up |
| `BatchValidation.StepConserves` | pocx_hashlib/src/batch_validation.rs:429-441 | one locked accumulation moves a contribution from outstanding to accumulated |
| `BatchValidation.EveryInterleaving` | pocx_hashlib/src/batch_validation.rs:143-172 | after any complete interleaving of any threads an accumulator holds the XOR of everything addressed to it |
| `BatchValidation.AccumulateScoop` | pocx_hashlib/src/batch_validation.rs:429-441 | XORs the scoop into the accumulator of its proof, in place, and touches no other |
| `BatchValidation.RunThreads` | pocx_hashlib/src/batch_validation.rs:158-172 | an arbitrary schedule of the threads leaves in each accumulator the XOR of all contributions to it |
| `BatchValidation.SplitWork` | pocx_hashlib/src/batch_validation.rs:156-172 | any chunk size distributes the units so that the contributions to each proof stay the same |
| `BatchValidation.ExpandAll` | pocx_hashlib/src/batch_validation.rs:133-150 | the units of all proofs together contribute to each proof its own scoop |
| `BatchValidation.Judge` | pocx_hashlib/src/batch_validation.rs:174-213 | quality, deadline, validity and mismatch of one proof are those of the scalar reference |
| `BatchValidation.VerdictIs` | pocx_hashlib/src/batch_validation.rs:174-213 | a verdict is the quality, the number of whole base targets in it, or the maximum for base target 0, and an error with both qualities and the index exactly if another quality was claimed |
| `BatchValidation.Finalize` | pocx_hashlib/src/batch_validation.rs:174-226 | one result per proof in order, and early surrender with the index of the first mismatch exactly when the policy asks for it |
| `BatchValidation.ReferenceIsScalar` | pocx_hashlib/src/lib.rs:271-288 | below level 64 the quality the batch arrives at is the one of the scalar calculation |
| `BatchValidation.ValidateProofs` | pocx_hashlib/src/batch_validation.rs:121-226 | for every thread count, chunk split, schedule, CPU and nonce number, each proof below level 64 gets the quality the scalar calculation gives, with its deadline and verdict; from level 64 on that of the level modulo 64 |
| `Compression.ActionLevel` | pocx_miner/src/compression.rs:30-55 | a plot is mined exactly if its level is at most the target and the minimum is in reach; on-the-fly steps reach the minimum exactly |
| `Compression.XorWarpRangeSplit` | pocx_miner/src/compression.rs:57-93 | the XOR of a range of warps is the XOR of its two parts |
| `Compression.CompressChunk` | pocx_miner/src/compression.rs:97-176 | one vector of the buffer is the XOR of two others, all operands read before the store |
| `Compression.CompressStretch` | pocx_miner/src/compression.rs:97-190 | vector by vector, the destination receives the XOR of the two original stretches although it may overlap the first |
| `Compression.CompressPair` | pocx_miner/src/compression.rs:179-190 | warp p becomes the XOR of warps 2p and 2p+1 and nothing else changes |
| `Compression.CompressPairs` | pocx_miner/src/compression.rs:179-190 | one pass leaves in every warp of the lower half the XOR of its original pair |
| `Compression.FoldedStep` | pocx_miner/src/compression.rs:57-93 | a pass takes the buffer from s steps to s+1 |
| `Compression.CompressWarpsInline` | pocx_miner/src/compression.rs:57-93 | returns floor(W/2^s), and warp j of the buffer is the XOR of original warps j*2^s to (j+1)*2^s-1 |
| `Plots.PowerOfTwoTest` | pocx_miner/src/miner.rs:335-356 | the bit test is true exactly for 0 and for powers of two |
| `Plots.SetupExactly` | pocx_miner/src/miner.rs:335-356 | with on-the-fly compression s is the number of steps allowed if and only if the buffer has 2^s warps, or none and s is 0; every other buffer is refused |
| `Plots.StepsDivideBuffer` | pocx_miner/src/miner.rs:335-356 | every number of steps the setup allows divides the buffer into whole groups of warps |
| `Plots.PlotFile.Read` | pocx_plotfile/src/lib.rs:701-721 | delivers the next warps of the scoop, as many as fit and are left, and advances the progress by them; a failed read leaves the progress |
| `Plots.FillBuffer` | pocx_miner/src/plots.rs:347-402 | a full buffer, or the rest of the file; after an interrupt the buffer goes back although the progress has moved; after an error the rest of the file is skipped |
| `Plots.SendBuffer` | pocx_miner/src/plots.rs:404-463 | the buffer is sent with the divided warp offset and count, or given back when nothing is left of it; from level 1 on every nonce that is folded from genuine ones is the one it is reported as |
| `Plots.PlainReply` | pocx_miner/src/plots.rs:440-443 | every nonce of an uncompressed buffer that is genuine in the file is the one it is reported as |
| `Plots.RangeIsFold` | pocx_miner/src/plots.rs:404-438 | the XOR of raw warps in a buffer is, for every nonce that is genuine in them, the XOR of its scoops |
| `Plots.CompressedReply` | pocx_miner/src/plots.rs:404-463 | the 64 bytes at offset o of a compressed buffer are the scoop of nonce warp_offset*4096+o at level c+s, if that nonce is genuine in the 2^s warps it is folded from |
| `Plots.DropOdd` | pocx_miner/src/plots.rs:405-420 | dropping an odd last warp changes no complete group; a single warp has none |
| `Plots.NextBuffer` | pocx_miner/src/plots.rs:333-347 | the start of every buffer is a multiple of the group size, and whole buffers keep it so |
| `Plots.ScanBuffer` | pocx_miner/src/plots.rs:333-464 | one turn takes one buffer and gives it back or hands it on once, delivers the warps of its stretch in order, and loses at most a buffer to an interrupt |
| `Plots.ScanPlot` | pocx_miner/src/plots.rs:311-465 | the warps delivered follow one another from where the progress stood, and every nonce folded from genuine ones is genuine; on completion all of the file; after a read error nothing of the buffer that was being filled, nor of what follows it |
| `Plots.ReadDisk` | pocx_miner/src/plots.rs:311-469 | file after file, stopping only at an interrupt; balanced use of the pool; one closing message, the last but for the return of an interrupted buffer |
| `Plots.FaithfulIsGenuine` | pocx_miner/src/plots.rs:404-463 | if the file is genuine in the scoop, so is every nonce handed on |
| `Plots.DiskIsGenuine` | pocx_miner/src/plots.rs:311-469 | whatever a reader hands on from genuine files is genuine |
| `Plots.Reset` | pocx_miner/src/plots.rs:283-289 | every file starts over |
| `Plots.GetResumeInfo` | pocx_miner/src/plots.rs:219-235 | the progress of every file, and the sum |
| `Plots.SetResumeInfo` | pocx_miner/src/plots.rs:303-309 | every file is back where its scan paused and fit to be scanned, whatever has read it in between |
| `Resumption.FullCoverage` | pocx_miner/src/plots.rs:311-465 | a turn from the start of a file of W warps, without interrupt and read error and with room for a warp, ends at the end of the file and has delivered compressed warps 0 to floor(W/2^s)-1, each once, in order |
| `Resumption.ScanFromStart` | pocx_miner/src/miner.rs:1276-1291 | a round that starts over and meets neither interrupt nor read error delivers all of every file of the disk that the chain wants |
| `Resumption.AtMostOnce` | pocx_miner/src/plots.rs:370-386 | however often a scan is paused and resumed, the warps delivered strictly increase: none is delivered twice |
| `Resumption.PausedAt` | pocx_miner/src/plots.rs:346-386 | an interrupted reader has delivered everything before the buffer it was filling, and nothing of it |
| `Resumption.BuffersAre` | pocx_miner/src/plots.rs:333-469 | buffers start at multiples of their size, the progress lies in the buffer that was started last before it, or at its end, and the last buffer holds the rest of the file |
| `Resumption.LastBuffer` | pocx_miner/src/plots.rs:346-386 | a buffer holds no compressed warp if and only if it is the last of the file and holds fewer than 2^s warps |
| `Resumption.MissedByPause` | pocx_miner/src/plots.rs:370-386 | a scan resumed once misses exactly the warps of the buffer that was being filled when it was paused; none if and only if the saved progress is the end of the file and the last buffer, (W-1) mod C + 1 warps for a buffer of C, is shorter than 2^s |
| `Resumption.EveryPlainPauseLoses` | pocx_miner/src/plots.rs:370-386 | without compression every paused and resumed scan misses warps |
| `Resumption.FirstBufferLost` | pocx_miner/src/plots.rs:370-386 | the turn interrupted while it fills its first buffer delivers nothing and has passed over that buffer |
| `Resumption.DeliveredOrMissed` | pocx_miner/src/plots.rs:311-465 | over any number of pauses and read errors, a warp that the progress has passed is delivered if and only if no pause left it in a half-filled buffer and no read error skipped it |
| `Resumption.HistoryOnce` | pocx_miner/src/plots.rs:311-465 | over all rounds of a block, whatever other chains scan in between, the warps delivered from a file strictly increase |
| `Resumption.ReadThrough` | pocx_miner/src/plots.rs:311-469 | a round that nothing interrupts brings every file that the chain wants to its end |
| `Resumption.ScanWithPauses` | pocx_miner/src/miner.rs:1270-1291 | resetting, scanning, saving the progress, scanning for other chains, which start over or are resumed themselves, restoring it and scanning on, any number of times, gives every file a history of turns each of which starts where the one before stopped; if the last round is not interrupted, every file that the chain wants is at its end |
| `Hasher.CalcQualities` | pocx_miner/src/hasher.rs:48-95 | the submission names a nonce of the buffer with its quality, nothing in the buffer has a lower one, and the buffer is given back |
| `Hasher.BestValidates` | pocx_miner/src/hasher.rs:51-80 | the submission from a genuine nonce validates |
| `Hasher.GenuineQuality` | pocx_miner/src/hasher.rs:51-80 | the quality computed from a genuine nonce is that of the proof under the number submitted |
| `Hasher.NoneBetter` | pocx_miner/src/hasher.rs:51-80 | no genuine nonce of the buffer would have made a better submission |
| `Hasher.SubmittedLevel` | pocx_miner/src/hasher.rs:66-80 | a nonce number that wraps in the submission is still the same proof |
| `Hasher.HashScan` | pocx_miner/src/miner.rs:1312-1370 | one submission for every buffer of a scan, in order, that nothing in the buffer beats; every buffer is given back |
| `Hasher.MineDisk` | pocx_miner/src/miner.rs:1251-1374 | mining a disk: every submission names account, seed, mined level and a nonce of a file of the disk, and validates if that nonce is genuine in all warps it is folded from, for all compression steps, buffer sizes, vector widths, interrupts and read errors; from genuine files all validate; every buffer taken is given back |
| `Hasher.RepliesOfDisk` | pocx_miner/src/plots.rs:440-458 | every buffer handed on names account and seed of its file and the plot level plus the steps, and is faithful to the file nonce by nonce |
| `MinedProofs.AcceptedExactly` | pocx_hashlib/src/batch_validation.rs:174-213 | a proof whose claim is the submitted quality is accepted if and only if the submission validates at its level modulo 64 |
| `MinedProofs.ValidateMined` | pocx_hashlib/src/batch_validation.rs:121-226 | of submissions below level 64, batch validation accepts exactly those that validate, with the quality they claim, on any CPU, thread count and schedule, and surrenders as the policy says at the first that does not |
| `MinedProofs.LevelsStay` | pocx_miner/src/compression.rs:30-55 | files and minimum level below 64 give submissions below level 64 |
| `MinedProofs.MineAndValidate` | pocx_miner/src/miner.rs:1251-1374 | from the disk to the validator: of what is mined, exactly what validates is accepted; from files genuine in the scoop of the block, all of it |
| `Plotter.TaskNonce` | pocx_plotter_v2/src/cpu_hasher.rs:97-122 | within a task the saturating nonce count is the wrapping one |
| `Plotter.HashNonces` | pocx_plotter_v2/src/cpu_hasher.rs:84-122 | the tasks, in any order, fill the buffer with consecutive nonces modulo 2^64, last short task included |
| `Plotter.HelixScoop` | pocx_plotter_v2/src/cpu_compressor.rs:61-67 | one scoop is written or accumulated word by word, all others stay |
| `Plotter.HelixCompress` | pocx_plotter_v2/src/cpu_compressor.rs:36-112 | for rows in any order, each scoop of the warps written is the XOR of the scoop in the even warp and its mirror image in the odd one, on top of what was there in the accumulating variant; nothing else changes |
| `Plotter.BatchIsWarps` | pocx_plotter_v2/src/cpu_compressor.rs:53-69 | the mirrored pair of a batch is what the next two uncompressed warps contribute to a scoop of any level |
| `Plotter.PassStep` | pocx_plotter_v2/src/cpu_scheduler.rs:196-206 | a pass takes the slot from n folded warps to n + 2; the first pass needs nothing of what was in the buffer |
| `Plotter.OtherSlot` | pocx_plotter_v2/src/cpu_scheduler.rs:196-206 | a pass leaves the finished warps in the buffer as they are |
| `Plotter.WarpDone` | pocx_plotter_v2/src/cpu_scheduler.rs:208-213 | after 2^(c-1) passes the slot is a warp of level c |
| `PlotWriter.RowStep` | pocx_plotfile/src/lib.rs:770-787 | any number of words of a row are written where they belong and nothing else is |
| `PlotWriter.MarkerThere` | pocx_plotfile/src/lib.rs:873-900 | the marker is the end of the last scoop of the last nonce |
| `PlotWriter.MarkerBytes` | pocx_plotfile/src/lib.rs:836-900 | in bytes, the marker is a little-endian count followed by AF FE AF FE |
| `PlotWriter.CutOffIsSound` | pocx_plotfile/src/lib.rs:742-801 | a write that is cut off after any number of words leaves a file whose marker, or what can be taken for one, counts only genuine warps |
| `PlotWriter.CutOffMarker` | pocx_plotfile/src/lib.rs:742-801 | wherever a write is cut off, the marker is as it was, except at the end of the last row of the write that ends the file; there the last words of the buffer have taken its place |
| `PlotWriter.AllWritten` | pocx_plotfile/src/lib.rs:770-787 | a write that is not cut off adds its warps to the genuine ones |
| `PlotWriter.MarkerCosts` | pocx_plotfile/src/lib.rs:789-797 | a finished file keeps a scoop, whatever is plotted, if and only if it is not the last scoop of the last nonce |
| `PlotWriter.FinishedScoop` | pocx_plotfile/src/lib.rs:789-797 | a scoop of a finished plot is the scoop of its nonce at its level if and only if the marker does not lie in it or it ends in the marker |
| `Directory.Directory.Open` | pocx_plotfile/src/lib.rs:370-461 | opens or creates a file in progress, with marker 0; an error on the way leaves a file whose marker, if any, is true |
| `Directory.Directory.ReadResumeInfo` | pocx_plotfile/src/lib.rs:836-871 | the count in the marker, or its absence, or an error |
| `Directory.Directory.WriteResumeInfo` | pocx_plotfile/src/lib.rs:873-900 | count, cut to 32 bits, and magic, one after the other; sound also in between |
| `Directory.Directory.WriteScoops` | pocx_plotfile/src/lib.rs:770-787 | copies the rows; cut off within any row, the file stays sound |
| `Directory.Directory.WriteBuffer` | pocx_plotfile/src/lib.rs:742-801 | a gap to the marker, and an excess over the end, are refused and change nothing; otherwise the rows are copied and the marker is written, and the last warps make the file a plot; sound in every case, and a failed write that does not end the file leaves the old or the new marker |
| `Directory.VerdictExactly` | pocx_plotfile/src/lib.rs:742-801 | a write is accepted exactly when it starts where the file stands and fits; a wrong start is reported before an excess, with both positions |
| `Directory.Directory.FinalizeFile` | pocx_plotfile/src/lib.rs:813-834 | the file becomes a plot with the same contents, or nothing changes |
| `Directory.Directory.ServeTask` | pocx_plotter_v2/src/disk_writer.rs:70-180 | one task, with the file opened for it; without errors the file that waits for this write is brought forward or finished, and no other changes |
| `Directory.Directory.Serve` | pocx_plotter_v2/src/disk_writer.rs:53-185 | whatever errors or kills strike, every file stays sound; without them, tasks in order are all carried out and every file that they finish is a plot |
| `PlotScheduler.PassesOfLevel` | pocx_plotter_v2/src/cpu_scheduler.rs:54 | on eight bits and with a shift modulo 64, twice the passes are 2^c for levels 1 to 64 |
| `PlotScheduler.PassesWrap` | pocx_plotter_v2/src/cpu_scheduler.rs:54 | every level of eight bits has as many passes as the level from 1 to 64 that it differs from by a multiple of 64 |
| `PlotScheduler.NextNonce` | pocx_plotter_v2/src/cpu_scheduler.rs:82-91 | the nonce counter goes on modulo 2^64 from pass to pass and warp to warp, and stays a multiple of the task size |
| `PlotScheduler.FillPass` | pocx_plotter_v2/src/cpu_scheduler.rs:173-208 | hashing from the nonce counter and folding adds a pass to the next warp and keeps those in the buffer |
| `PlotScheduler.FillWarp` | pocx_plotter_v2/src/cpu_scheduler.rs:208-213 | after the last pass the buffer holds one warp of the file more |
| `PlotScheduler.QueueMore` | pocx_plotter_v2/src/cpu_scheduler.rs:132-158 | a sound task that is next in order keeps the queue of a path sound, and says what comes next |
| `PlotScheduler.PlotScheduler.constructor` | pocx_plotter_v2/src/cpu_scheduler.rs:65-130 | given and drawn seeds, resume points, files that are already full, and the first path that has files left |
| `PlotScheduler.PlotScheduler.FinishFull` | pocx_plotter_v2/src/cpu_scheduler.rs:93-113 | a file resumed at its end is finished, counted, and followed by one with another seed |
| `PlotScheduler.PlotScheduler.Fold` | pocx_plotter_v2/src/cpu_scheduler.rs:183-208 | a hashed batch takes the buffer and the nonce counter one pass further |
| `PlotScheduler.PlotScheduler.Flush` | pocx_plotter_v2/src/cpu_scheduler.rs:132-158 | the buffer goes out as one task with its start and number of warps; if the writer is gone, the plotter is stopped and nothing is sent |
| `PlotScheduler.PlotScheduler.NextPath` | pocx_plotter_v2/src/cpu_scheduler.rs:244-259 | finds a path that has files left if and only if there is one |
| `PlotScheduler.PlotScheduler.SendBuffer` | pocx_plotter_v2/src/cpu_scheduler.rs:222-242 | what is sent is sound and follows what the path has been sent before; a file that is done is counted once |
| `PlotScheduler.PlotScheduler.NextTurn` | pocx_plotter_v2/src/cpu_scheduler.rs:244-269 | going on to another path, or to the next file, keeps the counters of every path in step with what it has been sent |
| `PlotScheduler.PlotScheduler.Step` | pocx_plotter_v2/src/cpu_scheduler.rs:160-271 | a round of the loop keeps, for every path, the queue sound and in order, the nonce counter, the warp offset and the contents of the buffer; without faults it is exactly one pass less to do |
| `PlotScheduler.PlotScheduler.EndWarp` | pocx_plotter_v2/src/cpu_scheduler.rs:210-270 | the end of a warp is one warp less to do over all paths, whether the file goes on, ends, or was the last, and it is the turn of a path that has files left |
| `PlotScheduler.WarpCounted` | pocx_plotter_v2/src/cpu_scheduler.rs:210-270 | counting a warp, restarting the offset and counting a file together take one from the sum of the warps left |
| `PlotScheduler.WorkSign` | pocx_plotter_v2/src/cpu_scheduler.rs:160-171 | nothing is left to do exactly if every path has its files |
| `PlotScheduler.PlotScheduler.FlushRest` | pocx_plotter_v2/src/cpu_scheduler.rs:273-286 | a loop that is stopped anywhere sends the whole warps that it has, and no part of one |
| `PlotScheduler.RunThread` | pocx_plotter_v2/src/cpu_scheduler.rs:43-297 | stopped after any number of rounds, every path has been sent sound tasks in order; if the thread ends by itself, every path has been sent exactly its files; without faults it ends by itself if and only if nobody asks for empty files and the rounds are at least the passes there are to do |
| `PlotSessions.ReadResumes` | pocx_plotter_v2/src/plotter.rs:164-186 | a path is resumed where the marker of the file with its seed says, and at 0 if there is none; without errors exactly there |
| `PlotSessions.QueueServes` | pocx_plotter_v2/src/disk_writer.rs:53-185 | what the scheduler sends is what the writer of the path needs to keep its files sound |
| `PlotSessions.NamesCount` | pocx_plotter_v2/src/cpu_scheduler.rs:237-242 | the finished files have as many names as there are files if and only if no seed is drawn twice |
| `PlotSessions.Session` | pocx_plotter_v2/src/plotter.rs:164-470 | a session, with errors, kills and stops anywhere, keeps every file sound; without faults it comes to its end if and only if nobody asks for empty files and it gets the rounds, and every path has then been sent exactly its files; with names that are not in the way, each file is a plot, as many plots as files if no seed is drawn twice |
| `PlotAndMine.FinishedIsGenuine` | pocx_plotfile/src/lib.rs:789-797 | a finished plot is genuine in every scoop but 4095, and in that one if and only if the last nonce happens to end in the marker |
| `PlotAndMine.CheckComplete` | pocx_verifier/src/plotcheck.rs:263-317 | stops at the first scoop that differs from the regenerated one; in a finished plot that is the last of all, if any |
| `PlotAndMine.FinishedGroup` | pocx_plotfile/src/lib.rs:789-797 | all that a nonce is folded from is genuine in a finished plot, unless the scoop is 4095, the warps come out even, the nonce is the last, and the marker has done harm |
| `PlotAndMine.PlottedValidates` | pocx_miner/src/hasher.rs:51-80 | what is mined from a finished plot validates, unless it is the last nonce in scoop 4095 that the marker has harmed |
| `PlotAndMine.MinePlotted` | pocx_miner/src/miner.rs:1251-1374 | what is mined from the plots of a sound directory is accepted, submission by submission, unless it is for scoop 4095 and from a last nonce that the marker has harmed |
| `PlotAndMine.PlotThenMine` | pocx_plotter_v2/src/plotter.rs:164-470 | from empty directories, any number of sessions disturbed anywhere, then mining all plots of a directory and validating: every submission is accepted for any scoop but 4095, and for 4095 every one but those from a last nonce that the marker has harmed |
| `BufferPool.ReturnFits` | pocx_miner/src/miner.rs:491-499 | a buffer given back always finds room in the bounded channel |
| `BufferPool.NothingStranded` | pocx_miner/src/miner.rs:1312-1374 | when the collector has heard the end of every reader no buffer is left in its channel |
| `BufferPool.ActKeepsSound` | pocx_miner/src/plots.rs:311-469 | every move of a reader conserves the buffers and keeps its closing message behind its buffers |
| `BufferPool.CollectKeepsSound` | pocx_miner/src/miner.rs:1312-1370 | every message the collector takes conserves the buffers |
| `BufferPool.RoundsKeepSound` | pocx_miner/src/miner.rs:1251-1291 | rounds ending and starting conserve the buffers, also those that late readers still hold |
| `BufferPool.RoundsInTurn` | pocx_miner/src/miner.rs:1251-1291 | in every run rounds start and end in turn, and an ended round leaves no message |
| `BufferPool.EveryRunConserves` | pocx_miner/src/hasher.rs:48-95 | in every reachable state pooled, held, in-message and being-hashed buffers add up to the number created |
| `BufferPool.PoolRefills` | pocx_miner/src/miner.rs:491-499 | a finished round whose hashers are done leaves the pool full |
| `BufferPool.SomebodyHasIt` | pocx_miner/src/plots.rs:336-344 | when a reader waits for a buffer, some buffer is held, on its way or being hashed |
| `BufferPool.WaitingIsServed` | pocx_miner/src/plots.rs:336-344 | when the pool is empty, some enabled move returns a buffer or brings one closer to its return |
| `BufferPool.NoDeadlock` | pocx_miner/src/miner.rs:1251-1374 | with at least one buffer, a round in which some reader has not ended always has an enabled move that is neither the start of another round nor a reader's last |
| `BufferPool.NoReadersNoEnd` | pocx_miner/src/miner.rs:1312-1374 | without readers, no run ends a round that has started |
| `BufferPool.ReaderObeys` | pocx_miner/src/plots.rs:333-469 | a reader that reached its end obeyed the order of the protocol at every event and holds nothing |
| `Scheduler.Top` | pocx_miner/src/miner.rs:908-915 | the chain popped is queued and no queued chain has a higher priority |
| `Scheduler.NewBlockSound` | pocx_miner/src/miner.rs:727-819 | a new block keeps all invariants of the scheduler |
| `Scheduler.RescheduleSound` | pocx_miner/src/miner.rs:820-871 | a paused block on its way back keeps all invariants |
| `Scheduler.ProcessSound` | pocx_miner/src/miner.rs:872-1022 | starting, abandoning or pausing a scan keeps all invariants |
| `Scheduler.EndKeepsSound` | pocx_miner/src/miner.rs:1376-1493 | the end of a round keeps all invariants |
| `Scheduler.OneHandled` | pocx_miner/src/miner.rs:707-1026 | handling takes the first message only, and calls for a trigger exactly after a paused block and after a block that is not a first one |
| `Scheduler.EveryRunIsSound` | pocx_miner/src/miner.rs:681-1027 | in every reachable state: waiting work and free disks imply a pending trigger; a queued chain of the same or higher priority implies interrupt or a pending trigger; one round at most; no scan is cut short without cause; saved progress belongs to the block its chain is queued with |
| `Scheduler.RescheduleFresh` | pocx_miner/src/miner.rs:820-871 | a paused block that is accepted back is the newest block of its chain |
| `Scheduler.ProcessFresh` | pocx_miner/src/miner.rs:908-926 | popping a chain keeps the newest blocks and loses none; every chain whose paused block is still on its way back comes after the one popped |
| `Scheduler.EndFresh` | pocx_miner/src/miner.rs:1376-1468 | a pause that ends while no other paused block waits leaves a chain of higher priority queued |
| `Scheduler.PausedNeverOverwrites` | pocx_miner/src/miner.rs:820-871 | in every run in which no paused block waits when a round ends, a paused block never replaces a newer one and no newest block is lost |
| `Scheduler.OutlastingRunIsOrderly` | pocx_miner/src/miner.rs:1376-1468 | every run whose rounds outlast the messages waiting at their start is such a run |
| `Overtaking.BacklogCounts` | pocx_miner/src/miner.rs:707-1027 | while a round goes on, its backlog is the number of messages that waited at its start less those handled since |
| `Overtaking.BacklogAtStart` | pocx_miner/src/miner.rs:908-963 | a round starts with all waiting messages as its backlog |
| `Scheduler.EarlyEndLosesABlock` | pocx_miner/src/miner.rs:820-871 | without that condition a run exists whose end has lost the newest block of a chain to its older one |
| `SavedProgress.PauseSaves` | pocx_miner/src/miner.rs:1376-1468 | the end of a paused and interrupted round leaves its progress on its way back |
| `SavedProgress.NothingInvented` | pocx_miner/src/miner.rs:820-871 | the progress that a chain has after a step it had before, or the step was the end of a pause with it |
| `SavedProgress.NothingDropped` | pocx_miner/src/miner.rs:820-1022 | a step keeps the progress of a chain, on its way, queued or scanned on from, unless it ends the round that scans on from it, handles a new block of the chain it is queued with, or handles its own return while the chain is queued |
| `SavedProgress.KeptUntilDropped` | pocx_miner/src/miner.rs:681-1027 | over any run from any sound state, saved progress is there at the end or one of those three steps dropped it |
| `SavedProgress.ProgressWasSaved` | pocx_miner/src/miner.rs:681-1027 | in every run, the progress that a chain is queued with or scans on from was saved by a pause of this chain |
| `SavedProgress.ScansOn` | pocx_miner/src/miner.rs:908-963 | a chain taken from the queue scans on from the progress saved for it, and from the start if there is none |
| `Overtaking.Ahead` | pocx_miner/src/miner.rs:707-1022 | in every run, when the messages in front of a message are handled, it is next, the queue has kept at least what every trigger taking a chain would have left, and the newest blocks are those handled |
| `Overtaking.Drive` | pocx_miner/src/miner.rs:872-1022 | a run exists in which every trigger takes a chain |
| `Overtaking.OvertakenExactly` | pocx_miner/src/miner.rs:820-871 | from any sound state, a waiting paused block can come to replace a newer block of its chain if and only if a newer one is known or waiting in front of it and the triggers in front of it take its chain from the queue |
| `Overtaking.OverwrittenNext` | pocx_miner/src/miner.rs:820-871 | a stale paused block that is handled while its chain is not queued is what the chain is left with |
| `Scheduler.Scheduler.constructor` | pocx_miner/src/miner.rs:534-600 | starts with the first block of every chain that answered, then the trigger |
| `Scheduler.Scheduler.Announce` | pocx_miner/src/miner.rs:602-679 | a new block joins the queue of messages |
| `Scheduler.Scheduler.Next` | pocx_miner/src/miner.rs:707-1026 | handles the first message as specified and keeps all invariants |
| `Scheduler.Scheduler.OnNewBlock` | pocx_miner/src/miner.rs:727-819 | queues the chain with the block and drops saved progress |
| `Scheduler.Scheduler.OnReschedule` | pocx_miner/src/miner.rs:820-871 | queues the paused block with its progress unless a block of the chain is queued, and then changes neither block nor progress |
| `Scheduler.Scheduler.OnProcess` | pocx_miner/src/miner.rs:872-1022 | starts the best chain, or abandons or pauses the running scan |
| `Scheduler.Scheduler.SendTrigger` | pocx_miner/src/miner.rs:813-871 | the trigger joins the queue of messages |
| `Scheduler.Scheduler.FinishRound` | pocx_miner/src/miner.rs:1376-1493 | a paused and interrupted round sends its block back before the trigger; every round sends the trigger and frees the disks |
| `Submission.LastIsLeast` | pocx_miner/src/miner.rs:1106-1155 | the last quality forwarded is the minimum of all received ones that beat the target of their account: per account for a pool, over all for a wallet |
| `Submission.ForwardedDecrease` | pocx_miner/src/miner.rs:1106-1155 | forwarded qualities strictly decrease: per account for a pool, over all for a wallet |
| `Submission.OrderIrrelevant` | pocx_miner/src/miner.rs:1106-1155 | nonces arriving in another order end with the same best quality forwarded |
| `Submission.WalletBest` | pocx_miner/src/miner.rs:1118-1127 | in wallet mode the minimum stored over all accounts is the last quality forwarded |
| `Submission.ChainState.UpdateMiningInfo` | pocx_miner/src/miner.rs:225-262 | a new block resets the stored qualities and sets the target of every known account to the least of account, chain and pool target |
| `Submission.TargetIsLeast` | pocx_miner/src/miner.rs:242-258 | the target of an account is the least of those configured for its first entry, for the chain and for the block, and the maximum if there is none |
| `Submission.Adjusted` | pocx_miner/src/miner.rs:1106-1155 | the quality that competes is the number of whole base targets in the raw quality, or the maximum for base target 0 |
| `Submission.LowercaseIs` | pocx_miner/src/miner.rs:1106-1113 | lower-casing replaces each capital by its small letter and leaves every other character |
| `Submission.ChainState.BestOverall` | pocx_miner/src/miner.rs:1119-1127 | the least stored quality, or the 64-bit maximum |
| `Submission.ChainState.Submit` | pocx_miner/src/miner.rs:1106-1155 | nonces of other blocks change nothing; the others are received, and forwarded as the filter prescribes |
| `TimeBending.RootMono` | pocx_aggregator/src/time_bending.rs:27-45 | cube roots never decrease, and there is only one |
| `TimeBending.IntCubeRoot` | pocx_aggregator/src/time_bending.rs:27-45 | terminates with the exact floor cube root |
| `TimeBending.RoundedDiv` | pocx_aggregator/src/time_bending.rs:71-72 | half of the divisor added before the division rounds to the nearest integer |
| `TimeBending.DenominatorZero` | pocx_aggregator/src/time_bending.rs:65-69 | the denominator of the scale is 0 for block time 0 only |
| `TimeBending.CalculateQScale` | pocx_aggregator/src/time_bending.rs:48-73 | division by zero exactly for block time 0; otherwise the scale, which in products is block time over gamma times its cube root, both rounded down, to the nearest |
| `TimeBending.ScaleIs` | pocx_aggregator/src/time_bending.rs:48-73 | the scale is the one number between those bounds, and block time 0 has none |
| `TimeBending.CalculateTimeBendedDeadline` | pocx_aggregator/src/time_bending.rs:76-103 | division by zero exactly for a positive quality with base target or block time 0; otherwise the low 64 bits of the one number that, in products, is nearest to the scale times the cube root of quality over base target, and up to block time 0xd8062b7e664fb45a that number itself |
| `TimeBending.DeadlineIs` | pocx_aggregator/src/time_bending.rs:76-103 | the deadline is the one number between the bounds that cube root, base target, scale and rounding give in products |
| `TimeBending.DeadlineMonotone` | pocx_aggregator/src/time_bending.rs:76-103 | the deadline never decreases with raw quality and never increases with base target |
| `TimeBending.WorstDeadline` | pocx_aggregator/src/time_bending.rs:91-102 | at every scale, the deadline of the largest quality against base target 1 fits 64 bits if and only if the scale is at most 0x1965fea53d7170926baedf |
| `TimeBending.FitsByScale` | pocx_aggregator/src/time_bending.rs:76-103 | at every scale, the deadlines of all qualities and base targets fit 64 bits if and only if the scale is at most that limit |
| `TimeBending.FitsExactly` | pocx_aggregator/src/time_bending.rs:76-103 | for positive block times, the deadlines of all qualities and base targets fit 64 bits if and only if the block time is at most 0xd8062b7e664fb45a |
| `TimeBending.DeadlineFits` | pocx_aggregator/src/time_bending.rs:97-102 | for positive base target and block time from 1 to 0xd8062b7e664fb45a the deadline fits 64 bits |
| `TimeBending.HugeBlockTimeWraps` | pocx_aggregator/src/time_bending.rs:97-102 | at the largest inputs it does not, and the low digit is an early deadline |

## Left out

- Real SIMD intrinsics, CPU feature detection, alignment and raw allocation: registers are word sequences, features are booleans.
- The NEON files and the aarch64 `generate_nonces`: the shape of width 4, except that the aarch64 function passes a byte offset for its remainder.
- The OpenCL path: its kernel source is not part of this model.
- KeyedPermutation.Perm: the variants that take a block in two halves (`input_block_add_dl`, `input_block_sub_dl`, `apply_p_dl`, `perm_dl`) are modelled as the same operation on the concatenated block.
- Lanes.VApplyP: the 48 written-out vector steps are modelled by a loop over the same index formulas; the scalar ones are written out.
- Quality.QualityRound: the written-out vector steps of the round are modelled by the same loop.
- Memory is modelled in 4-byte cells; bytes appear where padding, payloads and hashes are compared with the textbook.
- Nonces.GenerateNoncesVector: for a count that is not a multiple of the width it states the whole vectors written; the callers modelled pass multiples.
- ProofQuality.GenerateScoop: arithmetic beyond 64 bits wraps, as in a release build; a build with overflow checks stops there instead.
- Nonces.GenerateNonces: `usize` has 64 bits; on 32-bit x86 the byte count wraps earlier.
- Plotter.HashNonces: tasks, and the rows of Plotter.HelixCompress, run in any order but one after the other; each writes columns or rows of its own.
- Directory.Directory.WriteBuffer: benchmark mode, direct input and output and the progress display are left out; what a process has written survives it, so a loss of the page cache by the machine is not modelled.
- Directory.Directory.Open: reserved space reads as zero, which on Windows needs the privilege-free path.
- Directory.Directory.Serve: what files hold is stated for levels 1 to 64; the command line admits 1 to 6, and at level 0 the count of passes becomes 2^63.
- PlotScheduler.RunThread: the queues to the writers are not bounded, and waiting for a buffer takes no rounds; the older plotter and the ring scheduler of the graphics card are left out, and send to the same file writer.
- PlotAndMine.PlotThenMine: levels 1 to 63; the miner opens every plot, also of levels that no session here plots.
- Plots.PlotFile.Read: the file is a sequence of cells and an arbitrary fault; seek, direct input and the dummy access mode are left out.
- Plots.SendBuffer: compression levels are unbounded; the eight bits of the code wrap for levels above 255 only.
- Hasher.CalcQualities: closed channels during shutdown are left out.
- BatchValidation.ProcessWorkRange: the surrender flag is a constant of the call; no code ever raises it.
- Scheduler.Scheduler.Next: the priority queue crate is a set of chains whose priority follows from their position.
- Submission.ChainState.Submit: lower-casing covers ASCII letters, which is all a hexadecimal signature has.
- Shutdown, disk wake-up, progress display, callbacks, configuration, logging and the benchmark of computation: no hard property.
- HTTP, JSON-RPC, authentication, databases, the aggregator queues and the protocol crate: plumbing.
- `calculate_next_generation_signature`, hex decoding and address encoding: wrappers.
- Network capacity, pool statistics and mock-chain difficulty: floating point and wall-clock time.
