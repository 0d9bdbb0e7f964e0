# Verification model of the benchmark protocol and its exported authenticators

This project models, in Dafny, the parts of the repository whose correctness is not visible from one function:

- the TASKQ workload, a master that hands out tasks to workers over channels and checks each result without
  redoing it (`Taskq*.dfy`, `TokenCollision.dfy`), with the GF(2) jump that makes the check cheap (`Bits.dfy`,
  `Xorshift.dfy`), over the constants both programs compile in (`Protocol.dfy`) and facts about remainders
  (`Division.dfy`);
- the sequenced AEAD channel below every workload (`SecureChannel.dfy`, `SecureEndpoint.dfy`);
- the RANDOM pointer chase (`PointerChase.dfy`, `ShuffleLaws.dfy`), the distributed CG, DGEMM and EP computations
  (`Cg.dfy`, `Dgemm.dfy`, `Ep.dfy`, over the scalars of `Arith.dfy` and, in `RealScalars.dfy`, the reals) and the STREAM
  and VMAP checksums (`Checksums.dfy`);
- the message scripts of the other workloads (`ScriptRun.dfy`, `Scripts.dfy`, `ScriptLaws.dfy`);
- the deadline scopes and the code that nests them: rendezvous and enrolment (`Deadline.dfy`, `Rendezvous.dfy`,
  `Enrolment.dfy`);
- exported authenticators after RFC 9261 (`Handshake.dfy`, `Extensions.dfy`, `Certificate.dfy`, `Request.dfy`,
  `CertVerify.dfy`, `Finished.dfy`, `Cmw.dfy`, `Policy.dfy`, `Crypto.dfy`, `Attestation.dfy`, `Session.dfy`,
  `Authenticator*.dfy`, `EmptyVerdicts.dfy`, `SchemePolicy.dfy`, `SessionTheorems.dfy`), with the bytes of every message
  in `WireLayout.dfy` over `BigEndian.dfy`.

Routines that change state are methods on classes or arrays, each proved equal to a specification function; the
theorems are lemmas about those functions. Beside them stand laws that pin the specification functions down in other
terms, down to single bits, bytes, numbers and calls: `TaskqSamples`, `TaskqRefusals`, `ShuffleLaws`, `RealScalars`,
`ScriptLaws`, `WireLayout` and `AuthenticatorBytes`, and sections of the other modules.

To verify the whole project: `dafny verify dfyconfig.toml`.

## How foreign code appears

- A 64-bit word is a sequence of 64 bits; exclusive-or, shifts and the conversion to numbers are defined on the bits.
- Encryption is ideal: opening succeeds only on an exact key, nonce, associated data and ciphertext that was sealed
  before. The network may deliver any bytes, to any receive, at any time; sealing can produce any ciphertext.
- Floating-point scalars of CG, DGEMM and the sums of EP are an arbitrary type with arbitrary operations, so every
  equality is one of operations in the same order; `RealScalars` takes them as the reals with an exact square root.
  STREAM and VMAP use reals with a rounding function of which only this is assumed: a multiple of 1/512 whose numerator
  stays below 2^53 is not changed.
- A blocking send puts its message into the channel at once. Whether it then holds its sender back until the message
  is received is a free choice at every step, from none (all buffered) to all (synchronous); a held sender waits until
  everything it sent, to anybody, is received, which is at least as long as `MPI_Send` may wait.
- Hash, MAC, signature, certificate parsing, chain building, JSON decoding and the TLS exporter are arbitrary
  functions. Only the completeness theorem assumes anything of them: the certificate's key accepts what the private
  key signs, and both ends of a connection export the same values.
- Time, random bytes, the results of message-passing calls and what the host answers about signals and timers are
  parameters.

## What turned out false

- An empty verdict of the validator does not always stand for a checked MAC. A Certificate message without entries,
  followed by any well-formed CertificateVerify and Finished messages, is accepted as an empty authenticator before
  signature and MAC are looked at (`fort/atls/ea/authenticator.go:250-258`), also without a request. Section 6 of
  RFC 9261 gives an empty authenticator the form of a lone Finished message. `EmptyVerdicts.EmptyVerdictIff` says
  exactly which inputs get an empty verdict, `EmptyVerdicts.EmptyVerdictMac` that the verdict stands for the MAC exactly
  when the input's first byte is the Finished type, and `EmptyVerdicts.EmptyVerdictWithoutKeys` gives an input.
- The signature schemes of a spontaneous policy bind the creator only; the validator never reads them
  (`AuthenticatorTheorems.ValidatorIgnoresAllowedSchemes`). `SchemePolicy.HonouredIff`: every non-empty verdict without
  a request is under a scheme the policy permits exactly when the policy permits all three supported schemes (0x0403,
  0x0804, 0x0807), that is, when its list excludes nothing the code could accept. `SchemePolicy.SupportedIsAccepted`
  gives, for each scheme, messages accepted under it whatever the policy lists, and
  `SchemePolicy.CreatedUnderOtherSchemes` says so of every library, key and connection.
- Not every CG size the option parser admits can be run. A bulk message is limited to 2^31 - 1 bytes, 28 fewer when
  encrypted (`src/master_npb.c:976-1003`), while the parser admits `--cg-n` up to 2^31 - 2 and up to 2^31 - 1 entries,
  each of eight bytes. `Scripts.BenchmarksRun`: no interleaving fails exactly when the vector and every worker's entries
  fit one message (`SizesFit`), and only then does any interleaving get to the end; `Scripts.LargeVectorFails` gives
  `--cg-n 300000000 --cg-nzpc 1`, and `Scripts.GeneratedSizesFit` the condition as two products.
- Two tasks of one run can have the same token: exactly when one of them draws the raw token 0, which is replaced, and
  the other the word that replaces it (`TaskqData.TokensStayApart`). Every run has exactly one such pair of 64-bit ids
  (`TokenCollision.OnePairCollides`), given by a formula in the run, so the tokens of a run are all different exactly
  when the larger of the two ids is not below the task count (`TokenCollision.TokensDifferIff`).
  `TokenCollision.TokensCollide` gives an input: with `--master 1 --runs 3 --task-count 1917330092086265031`, tasks
  998727945672275773 and 1917330092086265030 of run 3 share their token.

## Model

| member | source | states |
|---|---|---|
| `Xorshift.StepXor` | src/master_npb.c:1163-1169 | one xorshift step is additive over exclusive-or |
| `Xorshift.IterateXor` | src/master_npb.c:1163-1169 | so is any number of steps |
| `Xorshift.IterateInjective` | src/master_npb.c:1163-1169 | different words stay different over any number of steps |
| `Xorshift.ApplyJump` | src/master_npb.c:1196-1202 | applying a map whose columns are the images of the single bits under n steps is n steps, on every word |
| `Xorshift.ComposeJumps` | src/master_npb.c:1204-1209 | composing the maps for a and b steps gives the map for a + b steps |
| `Xorshift.LinearMapApply` | src/master_npb.c:1196-1202 | the loop over the 64 bits computes the application |
| `Xorshift.LinearMapCompose` | src/master_npb.c:1204-1209 | in place, every column of the output is the outer map applied to the inner column |
| `Xorshift.BuildXorshiftJump` | src/master_npb.c:1211-1229 | for every 64-bit count, square-and-multiply leaves the map of exactly that many steps |
| `SecureChannel.NonceRoundTrip` | src/master_npb.c:812-824 | a nonce is read back to the counter it was made from |
| `SecureChannel.NonceIsCanonical` | src/master_npb.c:818-824 | a nonce that parses is the one made from its counter |
| `SecureChannel.AadInjective` | src/master_npb.c:826-845 | equal associated data, of any two sessions, have equal transcript hash, direction, tag, length and counter |
| `SecureChannel.AadLayout` | src/master_npb.c:826-845 | the associated data is exactly 54 bytes with hash, version 2, direction, tag, length and counter read at their places |
| `SecureChannel.NonceLayout` | src/master_npb.c:812-824 | the nonce is exactly four zero bytes and the counter, most significant byte first |
| `SecureChannel.SendIff` | src/master_npb.c:847-882 | exactly when a send succeeds, and the frame, key, nonce and associated data it then uses |
| `SecureChannel.ReceiveDemands` | src/master_npb.c:884-927 | exactly when a receive gives up over its size or byte count, and what it demands of what it accepts |
| `SecureChannel.AcceptedWasSealedForIt` | src/master_npb.c:884-927 | even under one key for all, what is accepted was sealed for this session, direction and position, with this tag and length |
| `SecureChannel.ForeignFrameIsRejected` | src/master_npb.c:884-927 | a frame sealed for another session or the other direction is rejected under the same key and nonce |
| `SecureChannel.AcceptedIsNext` | src/master_npb.c:884-927 | a receive accepts only the message sent at its own position, with its tag and text |
| `SecureChannel.AcceptedIsPrefixOfSent` | src/master_npb.c:847-1091 | on any network, over any mix of small and bulk calls, what a receiver accepted is a prefix of what was sent to it |
| `SecureChannel.NonceNeverReused` | src/master_npb.c:847-882 | over all links and runs no key is used twice with one nonce; the counter stops at 2^64 - 1 |
| `SecureChannel.RejectionChangesNothing` | src/master_npb.c:884-927 | a receive changes something exactly when it accepts |
| `SecureChannel.HonestFrameIsAccepted` | src/master_npb.c:976-1091 | the frame of the message at the receiver's position is accepted with its text |
| `SecureEndpoint.MakeNonce` | src/master_npb.c:812-816 | writes four zero bytes and the counter, read back as a number from bytes 4 to 11 |
| `SecureEndpoint.ParseNonce` | src/master_npb.c:818-824 | refuses a non-zero byte among the first four and otherwise returns the number in the other eight |
| `SecureEndpoint.BuildAad` | src/master_npb.c:826-845 | writes binding, version, direction, tag, length and counter so that each is read at its place |
| `SecureEndpoint.Endpoint.Send` | src/worker_npb.c:565-598 | an end's send is the specified frame, logs one encryption and advances its counter, or aborts unchanged |
| `SecureEndpoint.Endpoint.Receive` | src/worker_npb.c:600-641 | an end's receive is the specified one and advances its counter exactly when it accepts |
| `TaskqData.HonestWorkVerifies` | src/master_npb.c:1171-1194 | an output computed from the genuine input with the right token passes every sample |
| `TaskqData.TokensStayApart` | src/master_npb.c:1163-1177 | a task's token is never zero, and after any number of iterations two 64-bit ids of a run have the same token exactly when they are equal or one's raw token is 0 and the other's its replacement |
| `TokenCollision.OneIdForToken` | src/master_npb.c:1171-1177 | for every word and run exactly one 64-bit id has that raw token, and a formula gives it |
| `TokenCollision.OnePairCollides` | src/master_npb.c:1171-1177 | every run has exactly one colliding pair of 64-bit ids |
| `TokenCollision.TokensDifferIff` | src/master_npb.c:1163-1177 | the tokens of a run's tasks are all different, after any number of iterations, exactly when one of the two ids is beyond the last task |
| `TokenCollision.PairOfRunThree` | src/master_npb.c:1171-1177 | the pair of run 3 |
| `TokenCollision.TokensCollide` | src/master_npb.c:1878-1881 | a workload the parser admits, within the counters' range, in which two tasks of run 3 share their token |
| `TaskqTheorems.RunKeepsInv` | src/master_npb.c:1620-1774 | the invariant over both sides and every frame in flight holds in every interleaving |
| `TaskqTheorems.NoCheckFails` | src/master_npb.c:1661-1747 | in any interleaving no counter, tag, length, run, task id, payload, time or token check fails, at the master or any worker |
| `TaskqTheorems.PollingKeepsWorkersBusy` | src/master_npb.c:1691-1747 | at every polling point completed and assigned ids partition the ids handed out, and as many workers are busy as open tasks allow |
| `TaskqTheorems.EveryTaskOnce` | src/master_npb.c:1691-1755 | when END is sent every task of the run was completed exactly once and nobody is busy |
| `TaskqTheorems.CountersDifferByFlight` | src/master_npb.c:847-927 | at every moment the two ends' counters of a direction differ by the frames in flight |
| `TaskqTheorems.RunEndAgrees` | src/worker_npb.c:1183-1257 | at the end of each run no reply is pending, and a worker that has consumed what was sent, END included, waits for the next run, or is done, with equal counters in both directions |
| `TaskqTheorems.FinalAgrees` | src/worker_npb.c:1183-1257 | after the last run every worker has consumed END and both ends' counters agree in each direction |
| `TaskqProgress.RoundSpends` | src/master_npb.c:1691-1747 | no deadlock: while the workload is not over, one fair round of steps spends some of a non-negative potential, whichever sends hold their sender back until received |
| `TaskqProgress.FairRunFinishes` | src/master_npb.c:1661-1755 | so every fair run finishes within a bound computed from the parameters, whichever sends block |
| `TaskqMaster.FillInput` | src/master_npb.c:1592-1593 | every input byte is id * 131 + run * 17 + index modulo 256, bit by bit |
| `TaskqMaster.CheckSamples` | src/master_npb.c:1725-1732 | accepts exactly when the first, the middle and the last byte are, bit by bit, those a worker makes of the genuine input with this token |
| `TaskqMaster.TaskQueue.BeginRun` | src/master_npb.c:1661-1677 | a run starts with nobody busy, nothing handed out and nothing completed, and START has gone to every worker in order |
| `TaskqMaster.TaskQueue.DistributeFirst` | src/master_npb.c:1679-1688 | task k goes to worker k until tasks or workers run out; while tasks remain everyone is busy |
| `TaskqMaster.TaskQueue.Handout` | src/master_npb.c:1577-1602 | the next id's header and its genuine input go to the worker, and the assignment is recorded |
| `TaskqMaster.TaskQueue.Check` | src/master_npb.c:1699-1733 | a result passes exactly when every header field, the token and the three sampled bytes are right; one wrong sampled byte is refused |
| `TaskqMaster.TaskQueue.CompleteAndRefill` | src/master_npb.c:1733-1745 | a genuine result completes its task, and the next id, if any, goes to the same worker; bookkeeping and full occupation are kept |
| `TaskqMaster.TaskQueue.Accept` | src/master_npb.c:1699-1745 | for any arriving result: a wrong one changes no bookkeeping, a right one completes its task and hands out the next |
| `TaskqMaster.TaskQueue.Sweep` | src/master_npb.c:1692-1746 | one sweep over the workers keeps the exactly-once bookkeeping for any probes |
| `TaskqMaster.TaskQueue.RunTasks` | src/master_npb.c:1691-1751 | the polling loop ends, if it ends without an error, with every task completed exactly once |
| `TaskqWorker.IterateToken` | src/worker_npb.c:1226-1229 | the token loop is that many xorshift steps |
| `TaskqWorker.ProcessTask` | src/worker_npb.c:1218-1250 | the token is the iterated initial token, every output bit is the input's with the token's and the lane's, and `verified` says exactly whether the three sampled input bytes are genuine |
| `TaskqSamples.InputSampledIff` | src/worker_npb.c:1218-1224 | the worker's check of its input accepts exactly data genuine at the three places, bit by bit |
| `TaskqSamples.OutputSampledIff` | src/master_npb.c:1725-1732 | the check of an output accepts exactly data right at the three places, bit by bit |
| `TaskqSamples.StepBits` | src/master_npb.c:1163-1169 | one generator step as one formula for every bit |
| `TaskqSamples.RawTokenBits` | src/master_npb.c:1171-1177 | the raw token bit by bit, in the constants as numbers |
| `TaskqRefusals.TakesEarliest` | src/worker_npb.c:600-641 | a receive takes the earliest frame of its tag and refuses it exactly over length or counter |
| `TaskqRefusals.WaitsIff` | src/worker_npb.c:600-641 | a receive waits exactly while no frame has its tag |
| `TaskqRefusals.WorkerTakes` | src/worker_npb.c:1183-1216 | for every state of a worker exactly which bodies it accepts |
| `TaskqRefusals.CommandRefused` | src/worker_npb.c:1160-1180 | exactly which commands are answered with a refusal |
| `TaskqRefusals.ReadyRefusedIff` | src/master_npb.c:1652-1657 | exactly which readiness reports the master refuses |
| `TaskqRefusals.ResultRefusedIff` | src/master_npb.c:1699-1711 | exactly which polled results the master refuses, field by field |
| `TaskqRefusals.OutputRefusedIff` | src/master_npb.c:1712-1733 | exactly which outputs the master refuses: length, counter, token or a sampled byte |
| `TaskqRefusals.SendersStop` | src/master_npb.c:847-882 | a sender gives up exactly at the last counter, and otherwise its counter goes up by one |
| `PointerChase.ShuffleIsPermutation` | src/worker_npb.c:1028-1036 | whatever positions are drawn, by any function of the position, the shuffled order is a permutation |
| `ShuffleLaws.EveryOrderOnce` | src/worker_npb.c:1028-1036 | every permutation is made by some picks, each at most its position, and by no others |
| `ShuffleLaws.OrderTrace` | src/worker_npb.c:1028-1036 | the order built is reached from 0, 1, 2, ... by one exchange per position from the last down, with the position the generator's next word selects |
| `ShuffleLaws.AfterIs` | src/worker_npb.c:1045-1086 | the final token stands as many places after token 0 as there were loads, around the circle |
| `PointerChase.ChaseAdvances` | src/worker_npb.c:1038-1055 | k dependent loads from position p end at position p + k modulo n, for every k |
| `PointerChase.AnyReachesAny` | src/worker_npb.c:1038-1043 | the links form one cycle: every element is reached from every other in fewer than n loads |
| `PointerChase.OneCycle` | src/worker_npb.c:1038-1043 | n loads return to the start, fewer do not |
| `PointerChase.Prediction` | src/worker_npb.c:1045-1086 | the worker's modular predictions of the warm-up and the measured run are where the loads end |
| `PointerChase.BuildOrder` | src/worker_npb.c:1028-1036 | the in-place shuffle is the one with the generator's picks, and its result a permutation |
| `PointerChase.Exchange` | src/worker_npb.c:1033-1035 | the two elements change places and no other moves |
| `PointerChase.BuildLinks` | src/worker_npb.c:1038-1043 | every element links to the next of the order, the last to the first, and the position of 0 is found |
| `PointerChase.RandomWorkload` | src/worker_npb.c:1002-1097 | warm-up check and `verified` always hold, and the final token depends only on size and access counts, so all workers report the same |
| `Cg.RowsArePartitioned` | src/master_npb.c:2333-2339 | every row belongs to exactly one worker, for any row and worker count |
| `Cg.SliceSpmv` | src/master_npb.c:2357-2380 | a worker's product with its rebased matrix is its rows of the full product |
| `Cg.GatheredIsProduct` | src/master_npb.c:2416-2425 | the gathered vector is the product with the whole matrix |
| `Cg.DistributedIsSequential` | src/master_npb.c:2405-2452 | every iterate equals the sequential one, for any workers, iterations and scalar operations |
| `Cg.SpmvKernel` | src/worker_npb.c:853-863 | the kernel computes each row as a left-to-right sum |
| `Cg.CutPart` | src/master_npb.c:2357-2379 | every row pointer is rebased by the first, and columns and values are the entries between the first and the last |
| `Cg.ScatterGather` | src/master_npb.c:2407-2425 | one exchange leaves the full product in `y` |
| `Cg.UpdateX` | src/master_npb.c:2446-2451 | every element becomes y's over the root of the left-to-right sum of squares, or `x` stays when that is not positive |
| `Cg.CgRun` | src/master_npb.c:2398-2452 | a run leaves the sequential iterate in `x` |
| `Cg.GenerateSparseMatrix` | src/master_npb.c:1237-1269 | refuses exactly the sizes that do not fit, and otherwise returns a well-formed matrix with equally many entries in every row, columns and values from alternating draws |
| `Cg.Shares` | src/master_npb.c:2333-2339 | every worker has an even share of the rows, the last also the remainder |
| `RealScalars.NormalisedIsNormal` | src/master_npb.c:2440-2451 | over the reals the new vector has norm 1 and every element times the norm is y's; with norm 0 it is the old one |
| `RealScalars.SparseElement` | src/worker_npb.c:853-863 | for any scalars every element is the left-to-right sum of the values times the elements their columns select |
| `RealScalars.SpmvIsDense` | src/worker_npb.c:853-863 | over the reals every element of the sparse product is the dense dot product of its row, duplicate entries added up |
| `RealScalars.EveryIteration` | src/master_npb.c:2405-2452 | every iteration of a run, over any workers, is the dense product followed by that normalisation |
| `Dgemm.RowsAt` | src/dgemm_kernel.c:9-20 | every element of the specified product is the left-to-right dot product of its row and column |
| `Dgemm.BlockRows` | src/master_bench.c:1326-1362 | multiplying a block of rows gives those rows of the whole product |
| `Dgemm.RowsJoin` | src/master_bench.c:1369-1381 | adjacent blocks of rows put one after the other are the rows of both |
| `Dgemm.MultiplyRow` | src/dgemm_kernel.c:13-19 | the middle and inner loops accumulate one row into the dot products |
| `Dgemm.Multiply` | src/dgemm_kernel.c:9-20 | row-inner-column accumulation over a cleared matrix computes the product |
| `Dgemm.DistributedMultiply` | src/master_bench.c:1326-1381 | blocks computed per worker and stored at their row starts reassemble to the product |
| `Dgemm.VerifyRow` | src/master_bench.c:931-948 | verification succeeds exactly when no element of the row is too far from its dot product |
| `Dgemm.MultiplyAndVerify` | src/master_bench.c:931-948 | the distributed product passes the verification of any row, for any scalar operations |
| `RealScalars.ProductElement` | src/dgemm_kernel.c:9-20 | for any scalars every element is the left-to-right sum of the products along row and column |
| `RealScalars.TimesIdentity` | src/dgemm_kernel.c:9-20 | multiplying by the identity on the right gives the matrix back |
| `RealScalars.IdentityTimes` | src/dgemm_kernel.c:9-20 | and on the left |
| `Ep.MaskIsRemainder` | src/worker_npb.c:810-811 | masking with 2^k - 1 is the remainder modulo 2^k |
| `Ep.NextStateIs` | src/worker_npb.c:816-820 | the wrapped 64-bit product masked to 46 bits is 5^13 times the state modulo 2^46 |
| `Ep.NeverZero` | src/worker_npb.c:816-820 | a non-zero state is never followed by zero |
| `Ep.StateClosedForm` | src/worker_npb.c:816-820 | the n-th state is 5^13 to the n times the start, modulo 2^46 |
| `Ep.ClampNeverFires` | src/worker_npb.c:829-832 | from any seed every uniform is above 1e-15 and below 1 |
| `Ep.EpCompute` | src/worker_npb.c:822-846 | both sums are those of the pairs' deviates in order, the counts are those of the pairs and total their number, and the guard on the first uniform changes nothing |
| `Ep.PairIs` | src/worker_npb.c:829-842 | a pair's deviates are of two consecutive closed-form uniforms, the earlier first, and its bin is its magnitude or the last |
| `Ep.StartIs` | src/worker_npb.c:826-827 | the start is the seed modulo 2^46, or 271828183 when nothing is left |
| `Ep.CountedIsSize` | src/worker_npb.c:838-843 | a bin's count is the number of pairs in it |
| `Ep.CheckAndAdd` | src/master_npb.c:2238-2247 | accepts exactly non-negative counts that sum to the pairs together with two finite sums, in 64-bit arithmetic that never overflows |
| `Ep.GatherResults` | src/master_npb.c:2226-2250 | accepts exactly when every worker's result is acceptable; then counts and sums are the totals over the workers in order, and the counts do not overflow either, given the startup check on pairs times workers |
| `Ep.TotalsAre` | src/master_npb.c:2249-2250 | the sums are added in the order the results arrive |
| `Ep.BinTotalIs` | src/master_npb.c:2238-2245 | a bin's total is the sum of the workers' counts for it |
| `Checksums.ExpectedStreamIsExact` | src/worker_npb.c:984-989 | seven times the element count is computed exactly |
| `Checksums.StreamRun` | src/worker_npb.c:945-993 | the sum is exactly 917504 for every MiB, at every permitted size, and the equality test passes |
| `Checksums.MappedIsExact` | src/master_npb.c:1153-1161 | no operation in producing and mapping a VMAP element rounds |
| `Checksums.VmapMaster` | src/master_npb.c:1510-1515 | element i is (i mod 4096) / 128 - 8, and the expected checksum exactly 1375616 for every MiB |
| `Checksums.VmapWorker` | src/worker_npb.c:1131-1143 | every element is mapped as specified, the checksum is the same exact number, and the samples verify |
| `Checksums.MappedTotal` | src/master_npb.c:1510-1515 | the exact sum in closed form |
| `ScriptRun.NoCheckFails` | src/master_npb.c:2197-2263 | when each worker runs what the master exchanges with it and every message fits its calls, no tag or length is ever wrong and no call refuses, in any interleaving |
| `ScriptRun.NoRunFailsIff` | src/master_npb.c:976-1048 | no interleaving fails exactly when every message fits the limit of the call that sends it and of the one that receives it |
| `ScriptRun.NeverDone` | src/master_npb.c:976-1003 | with a message that does not fit no interleaving gets to the end |
| `ScriptRun.RunsToEnd` | src/master_npb.c:2197-2263 | any interleaving can be continued, with every further send synchronous, to one that is done or has failed |
| `ScriptRun.NeverStuck` | src/master_npb.c:2197-2263 | until everyone is done, or the job has failed, somebody can move, even if every send blocks until it is received |
| `ScriptRun.DoneIsQuiet` | src/master_npb.c:2197-2263 | and in the end nothing is left in a channel |
| `ScriptRun.MasterCallFailsIff` | src/master_npb.c:884-927 | the master's call fails exactly over its size, or, receiving, over tag or length |
| `ScriptRun.WorkerCallFailsIff` | src/worker_npb.c:600-641 | and so does a worker's |
| `Scripts.ScriptsAreDual` | src/worker_npb.c:1465-1595 | for every workload and all parameters, tags, lengths and limits of both sides are the same sequence, the worker deriving its lengths from what it has received |
| `Scripts.BenchmarksRun` | src/master_npb.c:2342-2438 | for every workload and all parameters: no interleaving fails exactly when the sizes fit, none deadlocks even with synchronous sends, and the end is reachable exactly when the sizes fit |
| `Scripts.MasterFits` | src/master_npb.c:976-1048 | of all messages of all workloads, only the CG vector and the workers' CG entries can exceed a limit |
| `Scripts.GeneratedSizesFit` | src/master_npb.c:1237-1269 | for generated matrices the condition is that n doubles and the last worker's rows times entries per row fit one message |
| `Scripts.LargeVectorFails` | src/master_npb.c:1829-1833 | a size the parser admits and no run completes |
| `Scripts.CountersSuffice` | src/master_npb.c:847-882 | no benchmark exchanges as many messages on a channel as its 64-bit counters hold |
| `ScriptLaws.EpScript` | src/worker_npb.c:1465-1496 | the EP exchange message by message, tags, lengths and limits as numbers |
| `ScriptLaws.CgScript` | src/worker_npb.c:1497-1590 | the CG exchange likewise, for every row count, entry count and iteration |
| `ScriptLaws.TriggeredScript` | src/worker_npb.c:935-1097 | the STREAM and RANDOM exchanges likewise |
| `ScriptLaws.VmapScript` | src/worker_npb.c:1099-1158 | the VMAP exchange likewise |
| `ScriptLaws.RefusedCommand` | src/worker_npb.c:935-1012 | what a worker exchanges over a command it does not agree to |
| `ScriptLaws.RoundOrder` | src/master_npb.c:2213-2263 | in every round the master sends to all workers in order before it receives from them in order |
| `Deadline.TimeoutSetting` | src/npb_timeout.c:26-41 | accepts exactly digit strings of value 1 to 86400, in 32-bit arithmetic that never overflows |
| `Deadline.LeadingDigit` | src/npb_timeout.c:26-41 | the value of a text by the place of its digits |
| `Deadline.PrintedSetting` | src/npb_timeout.c:26-41 | a printed number is accepted as itself exactly from 1 to 86400; unset means the default |
| `Deadline.OnlyDigits` | src/npb_timeout.c:26-41 | nothing else than digits is accepted |
| `Deadline.TimerFollowsOutermost` | src/npb_timeout.c:64-123 | over any call sequence the timer is armed exactly while a scope is open, with the outermost scope's limit |
| `Deadline.InnerScopesChangeNothing` | src/npb_timeout.c:73-77 | balanced scopes inside an open one change nothing and call no alarm |
| `Deadline.ExitsExactly` | src/npb_timeout.c:64-123 | exactly when a call ends the process: wrong kind, unmatched end, too many open scopes, bad setting at first use, or a host whose signal mask, handler or timer does not let the outermost scope begin or end |
| `Deadline.ArmedSeconds` | src/npb_timeout.c:78-110 | an outermost scope arms the timer with its own kind's setting or default; any other leaves it alone |
| `Deadline.CancelledAtEnd` | src/npb_timeout.c:113-123 | the end of the outermost scope cancels it; any other leaves it alone |
| `Deadline.Timeouts.WaitBegin` | src/npb_timeout.c:64-111 | the method, with its exits in their order, is the specified step |
| `Deadline.Timeouts.WaitEnd` | src/npb_timeout.c:113-123 | the method is the specified step |
| `Rendezvous.FirstErrorIsFirst` | src/bench_rendezvous.c:22-25 | the kept error is the earliest; success means every call succeeded |
| `Rendezvous.ScopeIsBalanced` | src/bench_rendezvous.c:50-74 | one scope leaves depth and timer as they were |
| `Rendezvous.CleanUp` | src/bench_rendezvous.c:64-73 | releases in reverse order exactly what was acquired and keeps the first error |
| `Rendezvous.AcceptWorker` | src/bench_rendezvous.c:37-74 | on every path the scope is closed, port, name and handler are released, the calls made are exactly the specified ones in order, and the result is the first error among them |
| `Rendezvous.AcceptCalls` | src/bench_rendezvous.c:37-74 | the accepting side's calls in order, for every first failure |
| `Rendezvous.AcceptSucceedsIff` | src/bench_rendezvous.c:37-74 | accepting succeeds exactly when each of its eleven calls does |
| `Rendezvous.LookUp` | src/bench_rendezvous.c:92-108 | either all lookups say "not yet" and there is no answer, or the first that does not decides it |
| `Rendezvous.LookupSays` | src/bench_rendezvous.c:92-108 | what one lookup decides, with the library's codes as numbers |
| `Rendezvous.ResolvesOnce` | src/bench_rendezvous.c:92-108 | there is only one such answer |
| `Rendezvous.ConnectWorker` | src/bench_rendezvous.c:76-120 | the same for the connecting side, which returns exactly when a call before the lookups fails or a lookup is decisive |
| `Rendezvous.ConnectCalls` | src/bench_rendezvous.c:76-120 | the connecting side's calls in order, for every first failure |
| `Rendezvous.ServiceIs` | src/bench_rendezvous.c:11-20 | exactly which service name is used |
| `Enrolment.DisconnectPeer` | src/npb_mpi_wait.h:15-21 | the shutdown scope around a disconnect leaves depth and timer as they were |
| `Enrolment.Attest` | src/master_npb.c:2034-2062 | the verdict, built check by check, is that payload, evidence and report verification hold, or attestation is skipped |
| `Enrolment.Vet` | src/master_npb.c:2003-2069 | both rejections of the first half disconnect and close the scope; otherwise it stays open |
| `Enrolment.AgreeKeys` | src/master_npb.c:2071-2136 | each of the three rejections of the key exchange disconnects and closes the scope; otherwise it stays open |
| `Enrolment.Enrol` | src/master_npb.c:2003-2155 | on all six ways out the scope is closed once, and the worker is enrolled, and still connected, exactly when every check succeeded |
| `Enrolment.EnrolOne` | src/master_npb.c:1989-2156 | the process survives a pass exactly when host, rendezvous and messages let it; then depth and timer are as before, and the worker is enrolled exactly when length, attestation, signature, keys and confirmation are good |
| `Enrolment.EnrolAll` | src/master_npb.c:1989-2156 | after any mixture of passes that survive the depth is 0, the timer disarmed, and the workers are those admitted; otherwise the process has ended |
| `Enrolment.SurvivesIff` | src/master_npb.c:1989-2156 | when a pass survives, in settings, signal calls, library calls and messages |
| `Enrolment.EnrolmentsAre` | src/master_npb.c:2154 | the workers are as many as the passes that admit |
| `Enrolment.MessagesOfPass` | src/master_npb.c:2003-2136 | how many messages a pass exchanges on each way out |
| `Handshake.UnmarshalMarshal` | fort/atls/ea/handshake.go:18-44 | parsing undoes printing, whatever follows |
| `Handshake.MarshalUnmarshal` | fort/atls/ea/handshake.go:18-44 | printing undoes parsing |
| `Handshake.MarshalHandshakeMessage` | fort/atls/ea/handshake.go:18-27 | the buffer routine is the specified printer |
| `Handshake.UnmarshalHandshakeMessage` | fort/atls/ea/handshake.go:29-44 | the buffer routine is the specified parser |
| `WireLayout.MessageLayout` | fort/atls/ea/handshake.go:18-27 | a printed message is exactly its type, three length bytes and its body |
| `WireLayout.MessageCut` | fort/atls/ea/handshake.go:29-44 | splitting fails exactly on fewer bytes than header or length ask for |
| `Extensions.UnmarshalMarshal` | fort/atls/ea/extensions.go:8-58 | parsing undoes printing for any list of extensions, whatever follows |
| `Extensions.MarshalUnmarshal` | fort/atls/ea/extensions.go:8-58 | printing undoes parsing |
| `Extensions.MarshalExtensions` | fort/atls/ea/extensions.go:8-29 | the two-pass writer is the specified printer, with its length errors |
| `Extensions.UnmarshalExtensions` | fort/atls/ea/extensions.go:31-58 | the cursor loop is the specified parser, with its errors |
| `WireLayout.VectorLayout` | fort/atls/ea/extensions.go:8-29 | a printed vector is exactly its length and type, length and data of every extension |
| `WireLayout.VectorRefused` | fort/atls/ea/extensions.go:31-58 | a vector is refused exactly when it is cut short or holds no list of extensions |
| `Certificate.ListLengthNeverTruncated` | fort/atls/ea/certificate.go:35-40 | the unguarded three-byte length of a message that is returned is its full length |
| `Certificate.UnmarshalMarshal` | fort/atls/ea/certificate.go:13-92 | parsing undoes printing over any entries and extensions, and hands back the same bytes |
| `Certificate.MarshalUnmarshal` | fort/atls/ea/certificate.go:13-92 | printing undoes parsing, so re-printed bytes are the input |
| `Certificate.MarshalCertificateMessage` | fort/atls/ea/certificate.go:13-41 | the appending loop is the specified printer |
| `Certificate.UnmarshalCertificateMessage` | fort/atls/ea/certificate.go:43-92 | the cursor loop is the specified parser, with its errors |
| `WireLayout.CertificateLayout` | fort/atls/ea/certificate.go:13-41 | a printed message is exactly type 11, context, list length and the entries with their lengths |
| `Request.UnmarshalMarshal` | fort/atls/ea/request.go:34-80 | parsing undoes printing and returns trailing bytes untouched |
| `Request.MarshalUnmarshal` | fort/atls/ea/request.go:34-80 | printing undoes parsing |
| `Request.ParseBuilt` | fort/atls/ea/request.go:165-209 | every list of 1 to 0x7fff schemes is read back |
| `Request.BuiltParsed` | fort/atls/ea/request.go:165-184 | an extension that parses is one that can be built, and lists at least one scheme |
| `Request.SchemesSurviveTransport` | fort/atls/ea/request.go:34-88 | schemes built, embedded in a request, printed and parsed are the same |
| `Request.MarshalRequest` | fort/atls/ea/request.go:34-50 | the routine is the specified printer |
| `Request.UnmarshalRequest` | fort/atls/ea/request.go:52-80 | the routine is the specified parser |
| `Request.ParseSchemesExtension` | fort/atls/ea/request.go:165-184 | the scan and loop read the first extension of the type, as specified |
| `Request.MarshalSchemesExtension` | fort/atls/ea/request.go:194-209 | the buffer routine is the specified builder |
| `WireLayout.RequestLayout` | fort/atls/ea/request.go:34-50 | a printed request is exactly type 13 or 17, context and extension vector |
| `WireLayout.SchemesLayout` | fort/atls/ea/request.go:194-209 | a built extension is exactly a length and two bytes for every scheme |
| `CertVerify.UnmarshalMarshal` | fort/atls/ea/certverify.go:16-46 | parsing undoes printing |
| `CertVerify.MarshalUnmarshal` | fort/atls/ea/certverify.go:16-46 | printing undoes parsing |
| `CertVerify.MarshalCertificateVerify` | fort/atls/ea/certverify.go:16-25 | the buffer routine is the specified printer |
| `WireLayout.CertVerifyLayout` | fort/atls/ea/certverify.go:16-25 | a printed message is exactly type 15, scheme, signature length and signature |
| `CertVerify.SignedOctetsInjective` | fort/atls/ea/certverify.go:48-58 | the signed octets determine the transcript hash |
| `CertVerify.BuildCertVerifyInput` | fort/atls/ea/certverify.go:50-58 | the appends build the signed octets |
| `Finished.UnmarshalMarshal` | fort/atls/ea/finished.go:7-24 | parsing undoes printing |
| `Finished.MarshalUnmarshal` | fort/atls/ea/finished.go:7-24 | printing undoes parsing |
| `WireLayout.FinishedLayout` | fort/atls/ea/finished.go:7-12 | a printed message is exactly type 20 and a body that is not empty |
| `Cmw.PayloadOfBuilt` | fort/atls/ea/cmw_attestation.go:9-34 | a payload is extracted from the extension built around it |
| `Cmw.BuiltFromPayload` | fort/atls/ea/cmw_attestation.go:9-34 | data that extracts is that of the built extension |
| `Cmw.ExtractBuilt` | fort/atls/ea/cmw_attestation.go:9-34 | a payload built into the extensions ahead of any other of its type is the one extracted |
| `Cmw.CmwDataExtension` | fort/atls/ea/cmw_attestation.go:9-17 | the buffer routine is the specified builder, with its length errors |
| `WireLayout.PayloadLayout` | fort/atls/ea/cmw_attestation.go:9-17 | a built extension is exactly type 0xff00 with length and payload |
| `Cmw.ExtractFindsCarried` | fort/atls/ea/cmw_attestation.go:19-34 | nothing is extracted exactly when no extension of the type is there |
| `Cmw.ExtractFromExtensions` | fort/atls/ea/cmw_attestation.go:19-34 | the scan is the specified extraction, with its errors |
| `Cmw.ValidatePlacement` | fort/atls/ea/cmw_attestation.go:36-48 | the scan succeeds exactly when only entry 0 carries the extension |
| `Policy.RequestPermitsExtension` | fort/atls/ea/policy.go:8-18 | the scan finds exactly the types a request lists |
| `Policy.ValidateEntryExtensions` | fort/atls/ea/policy.go:44-57 | the scan succeeds exactly when the types are among the request's, or without one among the policy's |
| `Policy.SchemePermittedIff` | fort/atls/ea/policy.go:32-42 | a scheme is permitted unless a policy lists schemes and not this one |
| `Crypto.ChosenSchemeFits` | fort/atls/ea/sigscheme.go:39-79 | the chosen scheme fits the key and is among the offered ones when there are any |
| `AuthenticatorBytes.ChosenIsFirst` | fort/atls/ea/sigscheme.go:39-60 | among offered schemes the first that fits the key is chosen |
| `AuthenticatorBytes.DefaultIs` | fort/atls/ea/sigscheme.go:60-79 | with none offered, the one of the key's kind |
| `Attestation.VerifiedIffTrustworthy` | fort/atls/attestation/verify.go:25-60 | a payload is verified exactly when each statement it makes was accepted, it makes one, and the binder is this connection's |
| `Attestation.CheckPayload` | fort/atls/attestation/verify.go:25-87 | the method that sets the verdict's flags as checks pass is the specified verification |
| `Session.MarkContextUsed` | fort/atls/ea/session.go:20-32 | refuses a used context and changes nothing, otherwise adds exactly it; without a session does nothing |
| `AuthenticatorTheorems.ParsePrinted` | fort/atls/ea/authenticator.go:186-245 | messages printed one after the other are split and parsed back |
| `AuthenticatorTheorems.PrintParsed` | fort/atls/ea/authenticator.go:219-245 | what parses is, printed again, the whole input |
| `AuthenticatorTheorems.CreateThenValidate` | fort/atls/ea/authenticator.go:28-138 | whatever is created, full or empty, is accepted at the other end with the same context, certificates and payload |
| `AuthenticatorTheorems.AttachedPayloadArrives` | fort/atls/ea/authenticator.go:329-349 | a payload built into the creator's leaf extensions is the payload, verified and bound, of the validator's verdict |
| `AuthenticatorTheorems.FullVerdictIsProven` | fort/atls/ea/authenticator.go:216-349 | a non-empty verdict: input exactly three printed messages, signature and MAC over those bytes, scheme offered, extensions permitted, payload on entry 0 only (over raw bytes: `AuthenticatorBytes.FullVerdictOverBytes`) |
| `AuthenticatorTheorems.ProvenIsAccepted` | fort/atls/ea/authenticator.go:216-324 | and conversely, messages so proven pass every check |
| `AuthenticatorBytes.FullVerdictOverBytes` | fort/atls/ea/authenticator.go:203-324 | the library accepted 64 spaces, the text, a zero and the hash of exported context, request and certificate bytes; the MAC is over the hash of those and the certificate-verify bytes; with chain, permitted types, scheme and payload, all in the input's bytes |
| `AuthenticatorBytes.ExportedIff` | fort/atls/ea/exporters.go:23-64 | context and key are the connection's exports under the four literal labels, server for the server and client otherwise |
| `AuthenticatorBytes.CreatedOverBytes` | fort/atls/ea/authenticator.go:84-138 | the creator's messages in the same terms: what was signed with which key, the MAC, the certificates in order, the context and the scheme |
| `AuthenticatorBytes.CreateDemands` | fort/atls/ea/authenticator.go:28-72 | what has to hold for anything to be created: version, suite, role, identity, permitted extensions, offered schemes |
| `AuthenticatorBytes.FirstRefusals` | fort/atls/ea/authenticator.go:28-50 | the first checks and the error each returns |
| `AuthenticatorBytes.SignedLayout` | fort/atls/ea/certverify.go:48-58 | the signed octets byte by byte |
| `AuthenticatorBytes.EmptyLayout` | fort/atls/ea/authenticator.go:74-92 | an empty authenticator is exactly a Finished message whose MAC covers exported context, request and a Certificate message not sent |
| `AuthenticatorBytes.EmptyVerdictOverBytes` | fort/atls/ea/authenticator.go:190-215 | an input that starts with Finished is accepted exactly when it answers a request and is that message |
| `AuthenticatorTheorems.AttestedVerdict` | fort/atls/ea/authenticator.go:329-349 | a payload in the verdict was permitted, bound to the connection and had every statement verified |
| `AuthenticatorBytes.AttestedOverBytes` | fort/atls/ea/authenticator.go:329-349 | the payload's statements were accepted against the leaf key and context, and its binder is the hashes of leaf key and of leaf key with the connection's export |
| `AuthenticatorBytes.AttachedIff` | fort/atls/attestation/binding.go:21-92 | exactly which payloads are bound and accepted |
| `AuthenticatorTheorems.ValidatorIgnoresAllowedSchemes` | fort/atls/ea/authenticator.go:247-324 | the validator's checks do not depend on the policy's schemes |
| `SchemePolicy.CreatedUnderOtherSchemes` | fort/atls/ea/authenticator.go:96-102 | for any library, key and connection, what is created under one list of schemes is accepted under any other, with the key's own scheme |
| `SchemePolicy.SupportedIsAccepted` | fort/atls/ea/authenticator.go:262-324 | for each supported scheme, messages under it that are accepted whatever schemes the policy lists |
| `SchemePolicy.HonouredIff` | fort/atls/ea/policy.go:32-42 | a policy's schemes are honoured by every validator exactly when the policy permits all three supported schemes |
| `EmptyVerdicts.EmptyVerdictIff` | fort/atls/ea/authenticator.go:190-258 | exactly which inputs get an empty verdict |
| `EmptyVerdicts.EmptyVerdictMac` | fort/atls/ea/authenticator.go:190-258 | an empty verdict stands for the creator's MAC exactly when the input starts with Finished; otherwise signature and MAC do not matter |
| `EmptyVerdicts.EmptyVerdictWithoutKeys` | fort/atls/ea/authenticator.go:250-258 | an input with an empty verdict under any keys |
| `SessionTheorems.OneCall` | fort/atls/ea/session.go:20-32 | when a call marks its context, when it succeeds, and that it otherwise changes nothing, with a session and without one |
| `SessionTheorems.UsedOnlyGrows` | fort/atls/ea/session.go:20-32 | the used contexts only grow |
| `SessionTheorems.SuccessfulContextsDiffer` | fort/atls/ea/session.go:20-32 | the contexts of successful calls are pairwise different |
| `SessionTheorems.LateFailureConsumes` | fort/atls/ea/authenticator.go:325-346 | a validation failing in attestation has consumed its context |
| `AuthenticatorCalls.HashConcat` | fort/atls/ea/util.go:9-18 | hashing chunks and skipping empty ones is hashing their concatenation |
| `AuthenticatorCalls.HashTranscript` | fort/atls/ea/authenticator.go:117-127 | the hash is over the exported context, the request and the messages, in that order |
| `AuthenticatorCalls.BuildFull` | fort/atls/ea/authenticator.go:96-132 | the routine builds the specified messages (over raw bytes: `AuthenticatorBytes.CreatedOverBytes`) |
| `AuthenticatorCalls.CreateAuthenticator` | fort/atls/ea/authenticator.go:28-138 | result and session afterwards are the specified ones |
| `AuthenticatorCalls.JudgeMessages` | fort/atls/ea/authenticator.go:247-324 | the checks in their order are the specified ones |
| `AuthenticatorCalls.ValidateAuthenticator` | fort/atls/ea/authenticator.go:156-350 | result and session afterwards are the specified ones |

## Left out

- TaskqSystem.Run: models the encrypted form of the workload frames only; under `--no-encrypt` the control frames carry no counter to compare.
- TaskqTheorems.NoCheckFails: assumes (`Params.Fits`) that the frames the master sends over all channels together, workers + runs * (2 * workers + 2 * count), number at most 2^64 - 1; both ends stop there by design. This is sufficient, not necessary: one channel carries at most 1 + runs * (2 + 2 * count) of them.
- TaskqProgress.FairRunFinishes: a polling sweep is a finite sequence of probes, and fairness means every party is scheduled once per round.
- SecureChannel.AcceptedIsPrefixOfSent: the AEAD is ideal, and the two directions of every pair have different keys, as the key exchange provides.
- Cg.CgRun: the vector and matrix transfers are modelled in `Scripts`, not inside the iteration; square root, division and the positivity test are arbitrary.
- Ep.EpCompute: logarithm, square root, sine, cosine and the rounding of the sums are arbitrary functions; the worker's compute time, which the master also checks, is not modelled.
- Checksums.StreamRun: `isfinite` is not modelled, since the modelled values are reals.
- Enrolment.Enrol: what the checks compute (payload, report, signature, session keys, confirmation) and what the messages hold is not modelled, only their verdicts, their order and whether each message goes through.
- Rendezvous.ConnectWorker: the unbounded retry is a finite sequence of lookups; without a decisive one there is no result.
- Deadline.Timeouts.WaitBegin: what the host answers about mask, handler and timer is a parameter, one answer for each outermost begin or end; the signal handler itself is not modelled.
- Scripts.BenchmarksRun: the network is reliable and in order; the channel theorems cover other networks. A failing call ends the job as a whole.
- Authenticator.Validate: `leaf.Verify` is one yes-or-no answer about the chain and the options.
- Crypto.SignTranscript: hashing before signing is part of the abstract signature operation.
- Concurrency inside a session (its mutex) is not modelled: calls on one session happen one after the other.
- Memory allocation failure, printing, timing statistics and CSV output are not modelled.
- The certificate_authorities and oid_filters request extensions: parsed by the repository, used by none of the modelled code.
- Key exchange, owner signature, SEV-SNP report verification and the certificate download with its retries.
- `src/master.c`, `src/master_star.c`, `src/worker.c`, `src/worker_star.c` and the attestation-only pair repeat the modelled protocol with weaker checks; `src/worker_bench.c` repeats the channel.
- `fort/client`, `fort/server`, the listener and connection wrappers, `fort/tools`, `analysis/` and `vmbuild/`.
