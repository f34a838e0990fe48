# BTCRig in Dafny

BTCRig is a Bitcoin miner in C. This project models its core as Dafny programs and
proves properties of all inputs and all runs. It has four parts.

**Work scheduler.** `miner_core.dfy` gives each critical section of the locked miner
state as a function. `miner_class.dfy` is the miner as an object with its fields and its
256-slot ring; every method is proved to perform the step of the first file.
`miner_world.dfy` puts any number of workers and the controller around it: each worker is
a phase of its loop, a run is any list of actions, and a history records claims, credits,
matches and their fates. `miner_invariants.dfy` shows what every step keeps, and
`miner_theorems.dfy` draws the conclusions: nonces are handed out once, exhaustion and
staleness are exact, shares are delivered in order, counters add up, no wake-up is lost.
`miner_scans.dfy` carries whole scans through it: however a worker's callbacks, from the
processor or from a GPU, are interleaved with the steps of all other threads, each becomes
one report. `miner_progress.dfy` says what the critical sections do in terms of the miner's
fields, and that the work gets done: no worker idles beside work, callbacks are queued and
scans credited exactly when nothing disturbed them.
`extranonce.dfy`, `job.dfy`, `work.dfy` and `work_history.dfy` add the pool connection that
feeds the miner. No work is handed out and no share submitted twice; every job is made of the
pool's last messages; every share is earned by the job it names and worth the difficulty the
pool asked for.

**SHA256d.** `words.dfy`, `fips180.dfy` and `fips_hash.dfy` are the definition of FIPS
180-4 (sections 4.1.2, 4.2.2, 5.1.1, 5.3.3 and 6.2.2); `fips_constants.dfy` says where its
constants come from. `fast_c.dfy`, `ring.dfy`,
`unrolled.dfy`, `sha_ni.dfy` and `arm_sha2.dfy` are the fast forms, each proved to compute
that compression. `backends.dfy` joins them to the double hash from a midstate and
`scan.dfy` to the nonce scans and the exact meaning of their callbacks. Most proofs use only that
32-bit addition is associative and commutative.

**Arithmetic.** `digits.dfy` and `target.dfy` treat difficulty, target and comparison,
`end_to_end.dfy` ties them to the scan. `launch.dfy` and `gpu_scan.dfy` treat the partition of a
nonce range over GPU work items in 32-bit arithmetic and the collection of results.

**Streams and sessions.** `line_reader.dfy`, `pending.dfy`, `proxy.dfy`, `reconnect.dfy` with
`controller_log.dfy`, and `extension_list.dfy`.

Some properties one might expect fail at the edges of the code. They are stated with their
exact condition, and with an input where it fails: the accuracy of the target and its order
(`TargetAccuracy`, `TinyDifficultyFails`, `TargetAntitoneExact`, `AntitoneFails`), the
partition of a launch near 2^32 (`OpenClGenericExact`, `CudaGenericExact`, `FixedExact`,
`FullRangeOverruns`, `OpenClFullRangeOverruns`, `FixedLaunchRepeats`), staleness after 2^64 jobs (`CurrencyExact`,
`OldResultPassesAfterWrap`), and the search for names that contain spaces (`SearchExact`).

Integers are mathematical; every 32-bit and 64-bit wrap of the code is written out. A
`double` is a real number. The meaning of the SHA instructions is taken from the manuals
of Intel and ARM, that of the OpenSSL calls from FIPS 180-4. The clock, the random seed,
the outcome of reads and writes, and the order of threads are arguments.

## Model

| member | source | states |
|---|---|---|
| FastC.CompressWords | src/sha256d.c:201-243 | the 64-word loop computes the compression of FIPS 180-4 section 6.2.2 for every state and block |
| Ring.Compress16 | src/opencl_miner.c:77-94 | the 16-word ring loop computes the same compression, and the ring ends up holding the last sixteen schedule words |
| Ring.CompressVec2 | src/opencl_miner.c:474-491 | the two-component vector form computes it in each component |
| Unrolled.Lop3Tables | src/cuda_sha256d_kernel.cu:40-50 | truth tables 0xca and 0xe8 are Ch and Maj for all words |
| Unrolled.RoundMacro | src/cuda_sha256d_kernel.cu:59-64 | one in-place round with rotated register roles is one FIPS round |
| Unrolled.CompressUnrolled | src/cuda_sha256d_kernel.cu:102-170 | the unrolled rounds over an overwritten 16-word window compute the compression, in the plain and the lop3 form |
| Unrolled.RoundPair | src/cuda_sha256d_kernel.cu:171-175 | a paired round is one FIPS round in each lane |
| Unrolled.CompressDual | src/cuda_sha256d_kernel.cu:176-246 | the dual unrolled form computes the compression in both lanes |
| ShaNi.Rnds2IsTwoRounds | src/sha256d_x86_sha_ni.c:114-119 | the SHA-NI round instruction, with words and constants added beforehand, is two FIPS rounds on the shuffled state |
| ShaNi.MsgIsNextVec | src/sha256d_x86_sha_ni.c:121-125 | the message instructions with the shifted addition give the next four schedule words |
| ShaNi.CompressVec | src/sha256d_x86_sha_ni.c:97-178 | the pipelined schedule computes the compression for every state and block |
| ShaNi.CompressVec2 | src/sha256d_x86_sha_ni.c:180-294 | the interleaved two-lane pipeline computes it in both lanes |
| ArmSha2.HashIsFourRounds | src/sha256d_arm_sha2.c:132-148 | the ARM hash instructions are four FIPS rounds, whether words and constants are added at run time or folded before |
| ArmSha2.ScheduleIsNextVec | src/sha256d_arm_sha2.c:150-160 | the ARM schedule instructions give the next four schedule words |
| ArmSha2.FoldedTables | src/sha256d_arm_sha2.c:47-66 | the folded constant tables are the padding words plus the round constants |
| ArmSha2.CompressTail | src/sha256d_arm_sha2.c:119-171 | the folded-constant compressor of the first tail block computes the compression of tail and padding |
| ArmSha2.CompressSecond | src/sha256d_arm_sha2.c:173-229 | so does the compressor of the second hash |
| ArmSha2.CompressTail2 | src/sha256d_arm_sha2.c:231-304 | two-lane form of the first |
| ArmSha2.CompressSecond2 | src/sha256d_arm_sha2.c:306-385 | two-lane form of the second |
| Fips180.ScheduleReordered | src/sha256d.c:204-212 | the summation order the fast forms use gives the FIPS schedule |
| FipsConstants.RoundConstants | src/sha256d.c:11-28 | every round constant is the first 32 bits of the fractional part of the cube root of its prime, as in section 4.2.2 |
| FipsConstants.InitialValue | src/sha256d.c:6-9 | the initial hash value is made of the first 32 bits of the fractional parts of the square roots of the first eight primes, as in section 5.3.3 |
| FipsConstants.SingleBits | src/sha256d.c:201-224 | where the sigma functions send a single bit, which shows their rotations and shifts |
| FipsHash.PaddedHeader | src/sha256d.c:298-318 | padding an 80-byte header as in section 5.1.1 gives the first 64 bytes and the tail block the code writes down |
| FipsHash.PaddedDigest | src/sha256d.c:318-332 | padding a digest gives the second block the code writes down |
| FipsHash.MidstateShortcut | src/sha256d.c:253-332 | double SHA-256 of any header is what the midstate of its first 64 bytes and two compressions give |
| Backends.Prepare | src/sha256d.c:259-266 | preparation stores the midstate of the first 64 bytes |
| Backends.HashOpenSsl | src/sha256d.c:268-296 | the OpenSSL path hashes the tail words as the other paths do |
| Backends.HashFastC | src/sha256d.c:298-332 | the portable path computes the double hash from the midstate |
| Backends.HashShaNi | src/sha256d_x86_sha_ni.c:307-333 | so does the SHA-NI path |
| Backends.HashPairShaNi | src/sha256d_x86_sha_ni.c:335-382 | and its pair form for both nonces |
| Backends.HashArm | src/sha256d_arm_sha2.c:432-455 | so does the ARM path |
| Backends.HashPairArm | src/sha256d_arm_sha2.c:387-430 | and its pair form for both nonces |
| Backends.HashCompactKernel | src/opencl_miner.c:213-239 | so does the compact OpenCL kernel |
| Backends.HashUnrolledKernel | src/cuda_sha256d_kernel.cu:248-279 | so do the unrolled kernels, with or without lop3 |
| Backends.HashDualKernel | src/cuda_sha256d_kernel.cu:281-330 | so does the dual kernel for both nonces |
| Backends.HashVectorKernel | src/opencl_miner.c:494-525 | so does the register-heavy kernel for both nonces |
| Scan.HashWordsMeetTarget | src/sha256d.c:340-352 | the word loop from the top decides whether the 256-bit number is at most the target |
| Scan.ScanGeneric | src/sha256d.c:354-374 | the scan makes exactly the callbacks owed for its range, whatever the backend |
| Scan.ScanPaired | src/sha256d_x86_sha_ni.c:390-437 | the paired scans with their odd tail make the same callbacks; the ARM scan is the same method with its own hash functions |
| Scan.HashMeaning | src/miner.c:1202-1208 | with the job prepared as in miner_set_job, a nonce's hash words are the FIPS 180-4 double hash of the header carrying it, and meeting the target words means being at most the target as a little-endian number |
| Scan.TraceExact | src/sha256d.c:354-374 | the callbacks are one for each nonce of the range whose double hash is at most the target, in increasing order, with its hash, and no others |
| Scan.ScanJob | src/sha256d.c:398-417 | preparation and the scan of any backend together yield that trace |
| Scan.PartIsSound | src/sha256d.c:354-374 | any part of that trace in any order consists of winning nonces of the range, none twice, with their hashes |
| Digits.TopDigitDecides | src/miner.c:274-284 | of two numbers of equal length the most significant differing digit decides the order |
| Target.TargetFromDifficulty | src/miner.c:240-272 | the mantissa and exponent loops terminate and leave exactly the 32 bytes of the target; as a number it is at most 65535 * 256^26 / difficulty, by less than one or one part in 2^15 while the mantissa fits three bytes, and a difficulty that is not positive counts as 1; for difficulties whose mantissa the C cast can take |
| Target.NormalizedShape | src/miner.c:249-258 | mantissa times 256^(exp-3) is the exact threshold, exp stays in 3..32, and the mantissa is in its normal range except at the ends |
| Target.TargetBelowThreshold | src/miner.c:240-272 | the target never exceeds 65535 * 256^26 / d |
| Target.TargetAccuracy | src/miner.c:260-266 | the target is within one, or within one part in 2^15, of the exact threshold if and only if 65535 / d is below 2^48 |
| Target.TinyDifficultyFails | src/miner.c:260-266 | at d = 65535 / 2^48 the truncated mantissa gives a target of zero |
| Target.TargetAntitone | src/miner.c:240-272 | a larger difficulty never has a larger target, when the smaller one is above 65535 / 2^48 |
| Target.TargetAntitoneExact | src/miner.c:240-272 | the exact condition: no larger difficulty has a larger target if and only if 65535 / d is below 2^48, or what three bytes keep of the mantissa 65535 / d / 2^24 is 0xffffff; for difficulties whose mantissa the C cast cannot take this describes the model only |
| Target.AntitoneFails | src/miner.c:260-266 | at 65535 / 2^48 the target is zero while a larger difficulty has the largest one |
| Target.HashMeetsTarget | src/miner.c:274-284 | the byte loop decides whether the hash is at most the target as little-endian numbers |
| Target.HashDifficulty | src/miner.c:286-297 | the reported difficulty is 65535 * 256^26 divided by the hash, infinite for a zero hash |
| Target.MeetingHashHasDifficulty | src/miner.c:240-297 | every hash meeting the target of d is reported with at least d; a rejected hash is below d up to one part in 2^15, or outright when the threshold is below 2^15 |
| EndToEnd.ScanEarnsDifficulty | src/miner.c:380 | the callbacks of a scan for d all have difficulty at least d, and no nonce clearly above d is missed |
| EndToEnd.ScanAtDifficulty | src/miner.c:1193-1208 | target computation, preparation and scan together call back only for nonces of at least the given difficulty, or 1 if that is not positive, and for a representable one miss none clearly above it |
| MinerObject.Miner.constructor | src/miner.c:782-815 | a new miner has no job, no shares and zero counters |
| MinerObject.Miner.ShouldWait | src/miner.c:449-459 | a worker waits exactly when the miner is not stopped and is paused or has no valid job |
| MinerObject.Miner.CopyJobAndNonceRange | src/miner.c:461-488 | the allocator hands out the next range, cut to what remains, or raises exhaustion once, and changes nothing else |
| MinerObject.Miner.StillCurrent | src/miner.c:495-502 | the staleness check on the object's state |
| MinerObject.Miner.QueueShare | src/miner.c:389-406 | the ring appends to the queue when it has room and is unchanged otherwise |
| MinerObject.Miner.QueueScanMatch | src/miner.c:504-518 | a match that is current and fits is queued with its job's texts and difficulty; any other leaves the state as it was |
| MinerObject.Miner.CreditHashes | src/miner.c:566-573 | current work is added to the total and to the worker's counter modulo 2^64, stale work to neither |
| MinerObject.Miner.AssignJob | src/miner.c:1210-1219 | a new job takes the next sequence number and empties the ring, the flag and the range |
| MinerObject.Miner.AssignPaused | src/miner.c:1231-1244 | the epoch advances exactly on running to paused |
| MinerObject.Miner.TakeNonceExhausted | src/miner.c:1257-1267 | reports and lowers the flag |
| MinerObject.Miner.Pop | src/miner.c:1269-1280 | removes the oldest queued share |
| MinerObject.Miner.StopWorkers | src/miner.c:1159-1167 | sets the stop flag of a started miner only |
| MinerObject.Miner.WorkersJoined | src/miner.c:1169-1190 | when the workers were joined the miner counts as not started, and nothing else changes |
| MinerInvariants.StepInv | src/miner.c:536-577 | every critical section of every thread keeps the whole invariant |
| MinerInvariants.RunInv | src/miner.c:536-577 | every reachable state of any number of workers satisfies it |
| MinerTheorems.NoncesHandedOutOnce | src/miner.c:471-484 | in every reachable state each nonce of a job is in exactly one claim if below the job's frontier and in none otherwise; the current frontier is next_nonce |
| MinerTheorems.ExhaustionExact | src/miner.c:472-474 | exhaustion is raised and reported at most once a job and only when all 2^32 nonces of it were handed out; validity and flag are characterised exactly |
| MinerTheorems.CurrencyExact | src/miner.c:495-502 | a claim is current exactly when the miner runs and jobs and pauses since then are multiples of 2^64; within 2^64 steps, exactly when none assigned a job, stopped, or went from running to paused |
| MinerTheorems.OldResultPassesAfterWrap | src/miner.c:1211 | after exactly 2^64 new jobs an old claim passes the check |
| MinerTheorems.QueueIsFifo | src/miner.c:389-406 | at most 256 queued shares, delivered in the order found; each queued share belongs to the current job and to a range claimed for it |
| MinerTheorems.FateSettles | src/miner.c:504-518 | a match changes its fate only from queued, by being popped at the head or cleared by a new job |
| MinerTheorems.FateSettlesOverRuns | src/miner.c:504-518 | over any run a match that is stale, refused, popped or cleared stays so |
| MinerTheorems.DeliveredShare | src/miner.c:1269-1280 | a pop returns the oldest queued match, and no match is popped twice |
| MinerTheorems.SharesAreEarned | src/miner.c:504-518 | every match, and every share a pop returns, carries the texts of a posted job and the double hash of that job's header with its nonce, at most that job's target; for a popped share it is the current job |
| MinerTheorems.NoNonceReportedTwice | src/miner.c:461-518 | no nonce of a job is reported twice, by whatever claims; within a claim this rests on scans calling back once for a nonce, which MinerScans.ExactTraceFits and MinerScans.LaunchFits prove of processor scans and of exact launches |
| MinerScans.ExactTraceFits | src/miner.c:559-563 | the exact callback trace of a processor's scan over the claimed range fits what the worker may report |
| MinerScans.LaunchFits | src/miner.c:504-518 | so does the trace of every exact GPU launch, in the order of its counter: it is part of the exact trace, or all of it when the buffer holds it |
| MinerScans.OthersKeep | src/miner.c:504-518 | a step of another thread neither moves a scanning worker nor changes what was reported for its claim |
| MinerScans.ScanIsReported | src/miner.c:559-563 | in any interleaving with the steps of all other threads, the callbacks of a worker's scan are all reported for its claim, once each, in order, with the hashes they pass on, and the worker goes on scanning |
| MinerScans.GrantedScan | src/miner.c:461-518 | from the grant of a range on, in any interleaving, exactly the callbacks that arrive are reported for it; when all that are owed arrived, in any order, the reports are the winning nonces of the range with the double hashes of the job's header |
| MinerTheorems.HashAccounting | src/miner.c:566-573 | each range is credited at most once; total and per-worker counters agree modulo 2^64; credited hashes never exceed the nonces handed out, nor 2^32 a job, also when GPU scans drop ranges |
| MinerTheorems.NoLostWakeup | src/miner.c:449-459 | in every reachable state a blocked worker implies that the miner is not stopped and is paused or without valid job |
| MinerProgress.CheckExact | src/miner.c:449-459 | a worker that checks the wait condition goes on exactly when the miner is stopped, or runs unpaused with a valid job |
| MinerProgress.ObserveExact | src/miner.c:536-548 | the loop top ends a worker on a stop, sends it to the wait on a pause and to the allocator otherwise |
| MinerProgress.ClaimExact | src/miner.c:461-488 | the allocator grants exactly when the miner runs unpaused with a valid job and nonces left: from the next nonce on, as many as asked for, 262144 by default, or what is left |
| MinerProgress.WorkIsTaken | src/miner.c:536-577 | as long as there is work, a worker is handed a range after at most three steps of its own, whatever the other threads do |
| MinerProgress.CallbackFate | src/miner.c:504-518 | in any interleaving a callback's share joins the end of the queue, with its nonce, hash, difficulty and texts, exactly when no new job, pause or stop came since its grant and fewer than 256 shares wait; otherwise the queue stays as it is |
| MinerProgress.ScanCredited | src/miner.c:566-573 | a finished scan is credited in full to the total and to its worker, modulo 2^64, exactly when nothing disturbed its claim |
| MinerProgress.ControlFollows | src/miner.c:1193-1244 | after any run the miner is paused as last told, holds the last of the jobs assigned, and is stopped if it was told to |
| MinerProgress.JoinedMeansEnded | src/miner.c:1164-1190 | the miner counts as not started only when every worker has ended, and joining them makes it so |
| MinerTheorems.WorkersExitAfterStop | src/miner.c:1164-1190 | after a stop no worker is blocked, each of its own steps brings it exactly one step nearer to its exit, and no other step moves it |
| MinerTheorems.WorkersEnd | src/miner.c:1164-1190 | after a stop, in any continuation, a worker has ended if and only if it has taken the steps its phase at the stop leaves it, at most three, besides reporting |
| Extranonce.FormatRoundTrip | src/miner.c:299-308 | the text denotes the counter and is never truncated; it has the announced length exactly for counters below 256^size |
| Extranonce.FormatInjective | src/miner.c:299-308 | equal texts come from equal counters even across sizes; a size that does not fit gives no text |
| Work.Session.RebuildMinerJob | src/stratum.c:1018-1067 | advances the counter on every attempt past the guard, and assigns exactly the job of the specification: texts, header and target, or none when a text is malformed |
| Work.Session.MaybeRollExtranonce | src/stratum.c:1217-1225 | takes the exhausted flag and rebuilds when it was up |
| Work.HandleInv | src/stratum.c:995-1155 | every message, roll and worker step keeps the invariant of the connection |
| Work.NoWorkTwice | src/stratum.c:1018-1067 | over every interleaving of messages, rolls and worker steps no pair of extranonce2 and nonce is handed out twice while the counter has not wrapped |
| WorkHistory.EventPosts | src/stratum.c:995-1155 | an event makes a job exactly when it is a notification, a difficulty, an extranonce or the report of an exhausted miner, all that is needed is in force, the counter can be written, and the texts are well-formed; the job is made of what is in force |
| WorkHistory.JobsFollowMessages | src/stratum.c:995-1155 | after any events, each job's header spells the texts of the last notification before it with the first extranonce given last, and its target is right for the difficulty given last |
| WorkHistory.NoSubmissionTwice | src/stratum.c:1018-1067 | no two matches are submitted with the same extranonce2 and nonce, and both are genuine |
| WorkHistory.MatchesAreGenuine | src/stratum.c:1018-1067 | every match is the double hash of the header of a job made as JobsFollowMessages says, wins that job's target, and is reported with at least the difficulty the pool had asked for, or 1 if that was not positive |
| Job.DecodeExact | src/miner.c:114-142 | a text decodes to bytes exactly when it is their hexadecimal encoding up to the case of letters |
| Job.HexToBytes | src/miner.c:127-142 | the loop decodes a text of exactly the given number of bytes and refuses any other |
| Job.PrevhashToHeaderBytes | src/miner.c:219-238 | eight groups of digits are decoded and each turned round, or the text is refused |
| Job.MerkleFold | src/miner.c:348-357 | the loop folds the branches into the coinbase hash, or stops at a bad one |
| Job.FoldIsRoot | src/miner.c:348-357 | folding the branch of any tree into its leftmost leaf gives the root of the tree |
| Job.BuildHeader | src/miner.c:336-378 | the 80 bytes are built exactly if they spell the texts in the sense of HeaderExact, and none are when no bytes do |
| Job.HeaderExact | src/miner.c:336-378 | the header is h if and only if the groups of four bytes of its fields, each turned round, spell version, previous hash, time and bits, the last four bytes are zero, and bytes 36..68 are the fold of the branches into the double hash of the coinbase that coinb1, extranonce1, extranonce2 and coinb2 spell in this order |
| Job.HeaderHoldsTreeRoot | src/miner.c:336-378 | when the branches are the left path of a tree of transactions over that coinbase, the header holds the root of the tree |
| Job.CountersGiveDifferentCoinbases | src/miner.c:299-346 | for one template, different counters give different coinbase bytes, whatever the announced sizes |
| Launch.CudaItem | src/cuda_sha256d_kernel.cu:606-632 | a work item of the generic CUDA kernels visits the offsets of its specification |
| Launch.CudaDualItem | src/cuda_sha256d_kernel.cu:377-412 | the dual kernel visits the same offsets, two at a time |
| Launch.CudaFixedItem | src/cuda_sha256d_kernel.cu:414-494 | fixed CUDA kernels |
| Launch.OpenClItem | src/opencl_miner.c:395-414 | generic OpenCL kernel |
| Launch.OpenClFixedItem | src/opencl_miner.c:372-394 | fixed OpenCL kernels, each further nonce tested by itself |
| Launch.RegisterHeavyItem | src/opencl_miner.c:539-547 | register-heavy kernel with its conditional second lane |
| Launch.OpenClGlobal | src/opencl_miner.c:1572-1579 | enough items, padded to whole work groups, by less than one group |
| Launch.CudaGrid | src/cuda_miner.c:728-732 | enough items, padded to whole blocks, by less than one block |
| Launch.LaunchVisitsOnce | src/opencl_miner.c:1572-1579 | when nonce_count + n * max(1, g) is at most 2^32, every kernel visits each offset of the range exactly once and nothing else |
| Launch.OpenClGenericExact | src/opencl_miner.c:395-414 | the generic OpenCL launch is exact if and only if the end of its last work item stays below 2^32 |
| Launch.CudaGenericExact | src/cuda_sha256d_kernel.cu:606-632 | with threads and nonces as clamped, the generic and dual CUDA launches are exact if and only if that holds and no padded item's base wraps |
| Launch.FullRangeOverruns | src/cuda_sha256d_kernel.cu:606-632 | with two nonces a thread and a count of 2^32 - 1 the launch visits an offset outside its range |
| Launch.OpenClFullRangeOverruns | src/opencl_miner.c:395-414 | so does the generic OpenCL launch with eight nonces a work item |
| Launch.FixedExact | src/cuda_sha256d_kernel.cu:414-494 | the fixed and register-heavy launches are exact if and only if the base of the last padded item does not wrap |
| Launch.FixedLaunchRepeats | src/cuda_miner.c:728-732 | a batch of 2^32 - 1 nonces in groups of 96 makes these kernels visit the first offsets again |
| GpuScan.ResultBuffer.Store | src/cuda_sha256d_kernel.cu:81-100 | every match takes its own slot from the counter; those past the end are counted only |
| GpuScan.ResultBuffer.Collect | src/opencl_miner.c:1611-1628 | the host reads back the stored matches in slot order |
| GpuScan.RunLaunch | src/cuda_miner.c:752-774 | with any of the kernels' hashing forms, one nonce or two at a time, the callbacks of a launch are its matches in counter order up to the capacity |
| GpuScan.LaunchMatchesScan | src/opencl_miner.c:1515-1631 | in whatever order the work items of an exact launch run, the callbacks are the matches of the processor's scan: all of them if they fit, otherwise as many as fit; which launches are exact is said by the rows of Launch |
| GpuScan.LaunchJob | src/opencl_miner.c:1515-1631 | preparation and an exact launch together call back for winning nonces of the range only, none twice, each with its FIPS 180-4 double hash; for all winners if the buffer holds them, otherwise for as many as it holds |
| LineReading.LineReader.ReadLine | src/stratum.c:841-901 | the buffer loop with memmove computes the outcome of its specification for any events of the connection |
| LineReading.OneLine | src/stratum.c:841-901 | one call returns the bytes before the first newline, without one carriage return at their end, or leaves the stream as it was; it gives up only when the line does not fit 65536 bytes |
| LineReading.NextEvent | src/stratum.c:866-900 | without a complete line the next event decides: a timeout gives -3, an error -1, the end of the stream 0, interruptions are repeated and bytes appended |
| LineReading.GivesUpExactly | src/stratum.c:862-864 | while bytes flow and suffice to fill the buffer, a call gives up with -2 if and only if the first line with its terminator does not fit |
| LineReading.CallsSplitTheStream | src/stratum.c:841-901 | for any chunking, timeouts and failures, the lines of successive calls followed by the lines still to come are the lines of the stream |
| LineReading.EveryLineArrives | src/stratum.c:841-901 | when bytes keep arriving and lines fit, every line is returned |
| Pending.PendingTable.RegisterPendingShare | src/stratum.c:614-648 | the slot search with early exit registers as specified |
| Pending.PendingTable.CompletePendingShare | src/stratum.c:650-676 | an answer frees its slot and reports the share's difficulty and latency, zero for an unknown id |
| Pending.RegisterMeaning | src/stratum.c:614-648 | registering makes the share the pending one for its id and disturbs no other, except the victim when all 64 slots are active and the id is new |
| Pending.CompleteMeaning | src/stratum.c:650-676 | an answer removes exactly the share with its id |
| Pending.TableConservation | src/stratum.c:614-676 | after any commands the count is the number of active slots, ids are distinct, registered = completed + evicted + replaced + pending, and the best difficulty is the maximum registered |
| Pending.PendingIsLast | src/stratum.c:614-676 | what is pending for an id is the share last submitted with it, so an answer reports that share's difficulty and the time since its submission |
| Pending.FreshIdsNeverReplace | src/stratum.c:1200-1215 | with a new id for every submission nothing is ever replaced |
| Proxy.Stream.Read | src/proxy_main.c:536-560 | each arrival has its return code; a read passes on a piece of what arrives, loses no byte, and an end or a loss stays |
| Proxy.Stream.Write | src/proxy_main.c:562-580 | each room has its return code; a write passes on the bytes it counts and no others |
| Proxy.Buffer.WriteTo | src/proxy_main.c:605-618 | performs the write half of the specification on a buffer and its stream |
| Proxy.WrittenKeeps | src/proxy_main.c:605-618 | a write, partial or not, keeps written and buffered bytes together; it fails exactly on a broken connection |
| Proxy.Buffer.ReadFrom | src/proxy_main.c:635-648 | performs the read half, and says whether the stream ended or was lost |
| Proxy.ReadInKeeps | src/proxy_main.c:635-648 | a read loses no byte, only an empty buffer takes bytes, and it stops exactly at the end of the stream or at its loss |
| Proxy.ProxyLoop | src/proxy_main.c:591-696 | the loop over both directions leaves connections, buffers and end as its specification does, which waits exactly after a round without progress and gives up at the first wait that fails |
| Proxy.RelayKeeps | src/proxy_main.c:591-696 | in both directions written bytes followed by the rest of the buffer are the bytes read, under any partial writes and retries; when one side ends or is lost, all bytes it had to deliver were written, and the reported end is the one the connection had |
| Proxy.RoundServes | src/proxy_main.c:602-665 | every round offers what is buffered to the writer and reads on into an empty buffer, in both directions, and ends exactly when a direction is stuck; progress means that bytes moved |
| Proxy.RelayGoesOn | src/proxy_main.c:602-692 | the relay goes on from round to round until a direction is stuck, waits after exactly those rounds in which no byte moved, and ends at a wait that fails |
| Proxy.BothServed | src/proxy_main.c:602-692 | neither direction starves: over a whole relay the reads and writes one direction used are at most twice those of the other and two |
| Proxy.WaitsOnlyStop | src/proxy_main.c:667-692 | a wait that fails can only cut the relay short; otherwise the waits change nothing |
| Reconnect.RunSession | src/stratum.c:1368-1432 | the session loop's clock checks compute the outcome of their specification |
| Reconnect.CompletedSessionLasts | src/stratum.c:1368-1379 | a session that ends well has reached the runtime limit or has been active for its whole period |
| ControllerLog.SessionEndsWell | src/stratum.c:1368-1432 | a session ends with code 0 exactly when, every round before going on, the clock reaches the runtime limit or the end of the period, which begins with the first line after which it is authorized and notified |
| Reconnect.SessionInTime | src/stratum.c:1368-1432 | on a clock that never runs backwards a session ends no earlier than it and its period began, however it ends |
| Reconnect.RetryDelaySeconds | src/stratum_main.c:314-331 | the delay is the base doubled once per further attempt, at most 60 seconds |
| ControllerLog.DelayDoubles | src/stratum_main.c:314-331 | the first wait is the base delay, each further one twice the one before, between 1 and 60 seconds |
| ControllerLog.DelayCut | src/stratum_main.c:2692-2711 | with a runtime limit the wait is cut to the whole seconds left, but not below one |
| Reconnect.DelaysBounded | src/stratum_main.c:2692-2711 | every wait before a reconnect lies between one second and sixty |
| Reconnect.OneDelayPerFailure | src/stratum_main.c:2668-2713 | as long as the controller goes on it has waited exactly once for every failed session |
| Reconnect.Controller | src/stratum_main.c:2612-2716 | the controller loop produces the session log, the exit code and the waits of its specification |
| ControllerLog.LogFollows | src/stratum_main.c:2603-2713 | in every run a session is a donation if and only if the one before was a user session that ended well; periods, pools and attempts follow from the session before; the first session is a user session of half to one and a half user phases |
| ControllerLog.TurnExact | src/stratum_main.c:2612-2716 | each turn logs one session with the code its events lead to; the controller stops exactly when the runtime limit is reached or the retries are used up, and waits exactly after a failure that does not stop it |
| ControllerLog.EveryTurnLogged | src/stratum_main.c:2612-2716 | as long as the controller goes on every turn has logged a session |
| Reconnect.ControllerOk | src/stratum_main.c:2612-2716 | in every run each donation session directly follows a completed user session on the same pool, pools are in range, and failures in a row stay within retries + 1 |
| Reconnect.BoundedFailures | src/stratum_main.c:2686-2689 | no stretch of more than retries + 1 sessions fails |
| Reconnect.DonationShare | src/donation.c:38-47 | on a clock that never runs backwards, donated seconds D and completed user seconds U satisfy (100 - L) D <= L (U + 30 (100 - L)) |
| Reconnect.NoMiningNoDonation | src/stratum_main.c:2603-2605 | without mining there is no donation session |
| ExtensionList.ExtensionListHas | src/opencl_miner.c:775-793 | the search with its skip, null pointers included |
| ExtensionList.SearchFindsNames | src/opencl_miner.c:775-793 | for a name without spaces the answer is true exactly when it is one of the space-separated names |
| ExtensionList.SearchSound | src/opencl_miner.c:775-793 | a hit always stands between spaces or ends of the list, whatever the needle |
| ExtensionList.SearchExact | src/opencl_miner.c:775-793 | for every needle: the search is right for all lists if and only if the needle does not overlap itself after one of its spaces |

## Left out

- Sockets, TLS, DNS, certificates, JSON and printing: messages arrive decoded, reads and writes as arbitrary pieces.
- Floating-point rounding: difficulty, target and time are real numbers, so no claim is made about the last bits of a double.
- Target.TargetFromDifficulty: asks for 65535 / d below 2^56, because beyond that the cast of the mantissa to uint32_t is undefined in C.
- Extranonce.FormatRoundTrip: does not model the overflow of extranonce2_size * 2 in C, which is undefined for sizes from 2^30 on.
- Work.Session.RebuildMinerJob: asks for a difficulty whose mantissa the C cast can take, as Target.TargetFromDifficulty does.
- Work.Session.MaybeRollExtranonce: asks for the same, for it may rebuild the job.
- EndToEnd.ScanAtDifficulty: asks for the same.
- Work.HandleInv: a notification with a text that does not fit leaves the old texts behind an invalid template, where the code has overwritten some of them; nothing reads them before the next notification. Embedded null characters in messages are not modelled.
- Job.BuildHeader: the checks that job id, extranonce2 and time fit the fields of the job always succeed for texts of a template, whose fields are no larger, and failing allocations are not modelled.
- MinerObject.Miner.constructor: models a miner that started completely; failed starts and their clean-up are plumbing.
- MinerObject.Miner.StopWorkers: models the locked part; waiting for the threads is the action Join of MinerWorld, which needs every worker to have ended, and destroying GPU devices is left out.
- MinerWorld.CanFind: a worker reports only winning nonces of its range, each once, as MinerScans.ExactTraceFits and MinerScans.LaunchFits prove of processor scans and exact launches; a GPU launch that is not exact (see Launch) is not joined to the scheduler.
- GpuScan.RunLaunch: a launch runs every work item once, in any order, with an atomic counter; drivers, buffers, contexts and their failures are not modelled. The 9 words of an entry must stay addressable with 32 bits, which bounds max_results.
- Unrolled.CompressUnrolled: the round constants written out in the kernel text are those of the table of FIPS 180-4.
- Reconnect.Controller: models the attempt counter as unbounded, which matters only for 2^64 failures in a row with unlimited retries.
- Reconnect.RunSession: connecting, subscribing and the texts sent to the pool are outcomes of the turn.
- Proxy.ProxyLoop: a connection about which nothing more is said is lost, so that a run ends; TLS reads and writes are pieces like the others.
- CPU detection, affinity, autotuning, statistics, console, configuration files and benchmarks: input and output, or easy.
- The callbacks are taken to be present; a scan without one does nothing.
