# Verification of the SKAUS payment flow

This project models the off-chain part of SKAUS, a private payment system on Solana, and proves what its
protocols and transformations keep. `dafny verify dfyconfig.toml` checks all of it.

**The relayer's queue** (`Nullifiers`, `RelayerProtocol`, `RelayerSafety`, `RelayerTheorems`,
`RelayerCounterexamples`, `RelayerPayments`, `RelayerLimits`, `RelayerLiveness`, `RelayerQueue`). A
withdrawal job is a row that polls pick, tasks work on and transactions pay. Everything the event loop
runs between two awaits is one action of a state machine over timers, poll bodies, tasks, unawaited
resets, job rows and the chain; the class `QueueProcessor` holds the source's fields, and each of its
methods is proved to take exactly one action. Theorems are about every run from an empty table. Some
hold however polls overlap. The others name their hypothesis: one poll body at a time (`IsSerialRun`).
The source does not enforce it, because the early returns of a poll schedule the next one and its
`finally` schedules another. The counterexamples show what then breaks, for every configuration that can
pick a job at all: `LimitKeptIff`, `TerminalKeptIff` and `FailedUnpaidIff` only record that. What an
operator can use are the conditions by state, `CanExceedIff`, `ConfirmedCanChangeIff` and
`FailedIsPaidIff`.

A job's nullifier is text, and the table's unique index is on the text; the program spends the 32 bytes
it decodes to. Two rows that differ in case are one nullifier on the chain, so a failed row can be paid
by the other one. `NullifiersApartIff` says when that is excluded.

The environment is modelled as follows. A database operation either succeeds and applies, or fails and
does not apply. Rows are created in the order of `createdAt`. One relayer process runs, and may crash
between any two actions. The chain executes a transaction at most once, and only if its nullifier is
unspent and the pool covers it; a transaction whose confirmation timed out may still land later.

**Tiers** (`Tiers`, `TierTheorems`). Amounts are split greedily into fixed tiers; the split is exact,
and on divisibility chains, which both tables are, it is the shortest.

**Notes from deposit to withdrawal** (`Deposits`, `Notes`, `Cipher`, `DepositAccounts`, `Base64`,
`Scanning`, `Indexer`, `MerklePath`, `Withdrawal`, `Pipeline`, and `Bytes`, `Numerals`, `Json`, `Utf8`,
`Strings`, `KnownAnswers` below them). A deposit makes one commitment and one encrypted note for every
tier; the account that holds them is parsed by the scanner and by the gateway's indexer; the recipient
decrypts, recomputes the commitment and proves membership of it in a sparse tree. SHA-256, HKDF, X25519
and Poseidon are parameters. What is taken of them is written in each statement: that both sides of an
X25519 exchange compute one secret (section 6.1 of RFC 7748), that Poseidon's values are below 2^256,
or, for binding, that a hash does not collide on the pairs that the argument compares. Random numbers,
the clock and the decoding of an address are parameters too.

**Viewing credentials** (`ViewingKey`). Issued for an auditor and read back with every absent field
absent. The comment of `deriveScopedKey` promises that different scopes produce independent keys; the
code joins mints with commas and treats no filter like an empty one. `ScopedKeysEqualIff` says exactly
which scopes share a key.

**Payment links** (`PaymentRequests`, `RequestHistory`, `Slug`). The request table under its route
handlers, each handler taken as one step; what a run did to a request is told by its events alone.
Amounts are reals, added by any operation that never makes a total smaller, as rounding to the nearest
double does not.

**Names** (`NamePacking`), **the executor** (`Executor`, `Backoff`), **the gateway's relay**
(`GatewayRelay`) and **the event subscription** (`Subscription`) follow the same pattern: a state
machine or a specification function, the source's loop or class proved against it, and theorems about
it.

Where documentation and code disagree, the model follows the code. README.md and docs name
ChaCha20-Poly1305 and Pedersen commitments; the code uses a SHA-256 key stream with a truncated hash as
tag, and Poseidon. The comment on `stop()` says polling stops gracefully; `StopSilencesIff` says when it
does. The catch block of a poll says it backs off; `FailedMarkNeverBacksOff` says that after a failed
update it waits one second however often that happened. `Opened` is the body of `decryptNote` after the
key, `Sealed` that of `encryptNote`.

The first part of the table below holds the theorems and the loops they are about. The methods of the
four classes `QueueProcessor`, `RelayService`, `HeliusGeyserSubscriber` and `RequestStore`, which tie
the state machines to the source's fields, are its last part.

## Model

| member | source | states |
|---|---|---|
| RelayerTheorems.SerialSafety | packages/relayer/src/queue.ts:87-243 | after every run with one poll body at a time: one live task a job at most, attempts never above the maximum, failed only with all attempts used, and activeJobs exact and within maxConcurrent |
| RelayerTheorems.TerminalIsForever | packages/relayer/src/queue.ts:200-232 | a row once confirmed or failed is left exactly as it is by the rest of any such run |
| RelayerTheorems.SendsBounded | packages/relayer/src/executor.ts:102-124 | a job submits at most maxAttempts squared transactions in any such run |
| RelayerTheorems.NoStarvation | packages/relayer/src/queue.ts:100-111 | while a job has not been launched, at most maxAttempts attempts were recorded for each older job and none for a younger one |
| RelayerTheorems.ActiveJobsIsExact | packages/relayer/src/queue.ts:135-157 | activeJobs is the number of unfinished job tasks in every reachable state, however polls overlap |
| RelayerTheorems.PaysAtMostOnce | packages/relayer/src/executor.ts:195-208 | every mix of retries, duplicated tasks and late landings pays a nullifier at most once, and pool plus payouts stays the initial pool |
| RelayerTheorems.ConfirmedIsPaid | packages/relayer/src/queue.ts:200-214 | a confirmed row holds the signature of the transaction that paid its own nullifier and amount, in every run |
| RelayerTheorems.ConfirmedApart | packages/relayer/src/queue.ts:200-214 | however their texts are spelled, two confirmed rows never share a nullifier on the chain |
| RelayerTheorems.NullifiersApartIff | packages/relayer/src/routes/jobs.ts:78-103 | after any run the rows decode to different nullifiers exactly when no client spelled one in two ways; the unique index is on the text |
| RelayerTheorems.OneCaseSuffices | apps/web/src/lib/withdraw.ts:225 | if every text is hex in lower case, as the client's own code prints it, no nullifier is spelled in two ways |
| Nullifiers.OneNullifierIff | packages/relayer/src/executor.ts:139-141 | two texts of 64 characters that can be sent are one nullifier exactly when they differ in case only |
| Nullifiers.SendableIff | packages/relayer/src/executor.ts:139-141 | of the texts of 64 characters exactly the hex ones decode to 32 bytes and are sent |
| RelayerCounterexamples.PaidByOtherSpelling | packages/relayer/src/executor.ts:139-141 | for every configuration that can pick a job and any two spellings of a nullifier, a run in which the row of one ends failed with nothing sent for it and the row of the other is paid |
| RelayerTheorems.FirstLaunchesInOrder | packages/relayer/src/queue.ts:100-111 | jobs are launched for the first time in creation order, and one never launched is pending with no attempts |
| RelayerSafety.RunKeepsInv | packages/relayer/src/queue.ts:81-243 | every action of every run keeps the invariant that needs no hypothesis about polls |
| RelayerSafety.SerialRunKeepsInv | packages/relayer/src/queue.ts:87-157 | every run with one poll body at a time also keeps the capacity, ownership and budget invariants |
| RelayerSafety.FindManyIs | packages/relayer/src/queue.ts:101-108 | the query answers eligible rows only, oldest first, passing over an eligible one only when full of older ones |
| RelayerSafety.TerminalRowsKept | packages/relayer/src/queue.ts:218-232 | terminal rows survive any continuation of a serial run from a state that satisfies the invariants |
| RelayerCounterexamples.OverlappingPolls | packages/relayer/src/queue.ts:113-117 | an idle poll schedules twice, so two poll bodies can be suspended together |
| RelayerCounterexamples.LimitExceeded | packages/relayer/src/queue.ts:92-97 | for every configuration that can pick a job, a run in which two overlapping polls leave twice maxConcurrent jobs active |
| RelayerLimits.LimitKeptIff | packages/relayer/src/queue.ts:92-157 | every run keeps activeJobs within maxConcurrent only for configurations that can never pick a job; CanExceedIff says it by state |
| RelayerLimits.CanExceedIff | packages/relayer/src/queue.ts:92-157 | from any reachable state, with no further timer firing, the limit can be exceeded exactly when active jobs and what the suspended polls can still launch are together above it |
| RelayerLimits.ExposureBounds | packages/relayer/src/queue.ts:92-157 | without timers, activeJobs never rises above that exposure |
| RelayerLimits.ExposureIsReached | packages/relayer/src/queue.ts:92-157 | without timers, some continuation launches all of it |
| RelayerCounterexamples.LaunchedTwice | packages/relayer/src/queue.ts:101-157 | for every configuration that can pick a job, a run in which one job has two live tasks |
| RelayerCounterexamples.ConfirmedOverwritten | packages/relayer/src/queue.ts:217-232 | for every such configuration, a run in which the second task turns the confirmed row into a failed one, or into a pending one if attempts are left |
| RelayerLimits.TerminalKeptIff | packages/relayer/src/queue.ts:200-232 | terminal rows are final in every run only for configurations that can never pick a job; ConfirmedCanChangeIff says it by state and row |
| RelayerLimits.ConfirmedCanChangeIff | packages/relayer/src/queue.ts:144-232 | a confirmed row can lose its confirmation exactly when a live task, a poll that picked it or a reset in flight still belongs to it |
| RelayerLimits.UnattendedIsFinal | packages/relayer/src/queue.ts:144-232 | a row that is not pending and has none of these stays as it is in every continuation, however polls overlap |
| RelayerCounterexamples.PaidButFailed | packages/relayer/src/executor.ts:192-208 | for every configuration that can pick a job, a run without overlap in which a send that timed out lands after the last attempt and pays a job that ended failed |
| RelayerLimits.FailedUnpaidIff | packages/relayer/src/executor.ts:192-208 | failed jobs are unpaid in every run without overlap only for configurations that can never pick a job; FailedIsPaidIff says it by state and row |
| RelayerPayments.FailedIsPaidIff | packages/relayer/src/executor.ts:192-208 | a job that ended failed is, or will yet be, paid exactly when its nullifier is spent or one of its submitted transactions is unresolved and covered by the pool, provided no other row spells the nullifier otherwise |
| RelayerPayments.RestIsPaidIff | packages/relayer/src/executor.ts:192-208 | the same for any state with a failed row that nothing in flight belongs to, whatever happens afterwards |
| RelayerPayments.CarefulFailureIsUnpaid | packages/relayer/src/queue.ts:200-232 | if no send of a job was given up on before the chain rejected it, no record of its confirmation failed and nobody else submitted its nullifier, to the chain or in another spelling to the relayer, a failed job is unpaid for good |
| RelayerCounterexamples.TimerLeftByStop | packages/relayer/src/queue.ts:56-63 | stopping after an idle poll leaves a timer armed |
| RelayerCounterexamples.StopSilencesIff | packages/relayer/src/queue.ts:56-63 | a stopped processor with work and a free slot launches again exactly when a timer is armed or a poll is suspended |
| RelayerLiveness.NeverSilent | packages/relayer/src/queue.ts:81-166 | in every reachable state, however polls overlap and whatever fails, a running processor has a timer armed or a poll body suspended |
| RelayerLiveness.StepPulses | packages/relayer/src/queue.ts:87-166 | while the processor runs, a poll body that ends early, at capacity or with nothing to pick, leaves exactly one more of armed timers and suspended polls than before its timer fired; every other step leaves as many |
| RelayerLiveness.RunPulses | packages/relayer/src/queue.ts:87-166 | over any run without a stop, timers and suspended polls grow by exactly the number of early ends |
| RelayerLiveness.TimerStartsPoll | packages/relayer/src/queue.ts:87-97 | a timer that fires starts a poll for as many jobs as there are free slots, and at capacity arms two timers instead |
| RelayerLiveness.FetchTakesOldest | packages/relayer/src/queue.ts:100-117 | a poll picks the oldest pending rows with attempts left, as many as it found free slots, and ends exactly when there are none |
| RelayerLiveness.MarkLaunchesAll | packages/relayer/src/queue.ts:124-157 | then those of them still pending are processing, and every one has a new task, in order, and takes a slot |
| RelayerLiveness.StopClearsTimers | packages/relayer/src/queue.ts:56-63 | stopping a processor none of whose polls ended early leaves no timer armed, and at most one poll body to finish |
| RelayerLiveness.RowsWereRequested | packages/relayer/src/routes/jobs.ts:78-103 | every row of a run has the nullifier and amount of some request, whatever was done to it |
| RelayerLiveness.RequestsHaveRows | packages/relayer/src/routes/jobs.ts:78-103 | every request has a row with its nullifier |
| RelayerLiveness.NoJobIsForgotten | packages/relayer/src/queue.ts:144-232 | however polls overlap, without a crash or a failing reset every row that is processing has a task that works on it or a reset on its way |
| RelayerLiveness.NoJobIsStuck | packages/relayer/src/queue.ts:87-232 | with one poll body at a time and no crash, lost reset or lost record of a failure, every job is confirmed, failed with all attempts used, pending with attempts left, or worked on |
| RelayerLiveness.AllTriesAreUsed | packages/relayer/src/executor.ts:106-124 | a task that never crashed and kept its records has lost exactly maxAttempts tries when it comes to record a failure |
| RelayerLiveness.GivesUpAfterAllTries | packages/relayer/src/executor.ts:106-124 | the same from any moment of its work, with the tries then left |
| Backoff.RunBackoff | packages/relayer/src/queue.ts:158-163 | after every run the backoff is min(1000 * 2^(k-1), 30000) for k failed queries since the last successful fetch, and 0 for none |
| Backoff.FailedMarkNeverBacksOff | packages/relayer/src/queue.ts:120-163 | without overlapping polls a failed update always waits exactly one second, because each poll resets the backoff before it |
| Backoff.CapReached | packages/relayer/src/queue.ts:33-34 | doubling reaches the cap exactly at the fifth doubling |
| Backoff.PausedIs | packages/relayer/src/executor.ts:106-120 | a failing execution with n attempts pauses 1000 * (2^(n-1) - 1) ms for n <= 6 and 31000 + 30000 * (n - 6) beyond |
| Backoff.FirstSuccess | packages/relayer/src/executor.ts:106-109 | every attempt before the chosen one failed, and the chosen one succeeded unless none did |
| Backoff.Execute | packages/relayer/src/executor.ts:102-124 | the result is the first success, with one send more than failures before it and the pauses between attempts only; none after the last |
| Executor.P75Rank | packages/relayer/src/executor.ts:304-306 | more than three quarters of the samples are at most the chosen percentile and at most three quarters below it |
| Executor.EstimateIgnoresOrder | packages/relayer/src/executor.ts:297-310 | permuted samples give the same estimate |
| Executor.EstimateCovers | packages/relayer/src/executor.ts:308-310 | the estimate is at least 10000 micro-lamports and at least 125 percent of the percentile, and the least such integer |
| Executor.InstructionReadsBack | packages/relayer/src/executor.ts:328-350 | the instruction data is 368 bytes with the discriminator in front, from which every field is read back at its own offset, for exactly the amounts of 64 bits |
| GatewayRelay.RunKeepsInv | apps/gateway/src/services/relay.ts:86-191 | in every reachable state pendingTxCount is the number of calls in flight and within maxPendingTxs, calls make at most three attempts, and reported confirmations were paid |
| GatewayRelay.CapacityHolds | apps/gateway/src/services/relay.ts:86-191 | from an idle service, pendingTxCount is the number of calls in flight and at most maxPendingTxs, and no call makes more than three attempts |
| GatewayRelay.ReportedIffOwnAndRecorded | apps/gateway/src/services/relay.ts:161-186 | from the moment the nullifier of an attempting call is spent, its caller is told confirmed exactly when that call's own confirmed attempt spent it and the next record of the metrics is stored |
| GatewayRelay.RecordDecides | apps/gateway/src/services/relay.ts:171-186 | after a confirmed attempt its caller is told so exactly when the next record is stored |
| GatewayRelay.SpentBeforeNeverConfirms | apps/gateway/src/services/relay.ts:161-186 | a call whose nullifier is spent before its attempt is never confirmed |
| GatewayRelay.FailsAfterThreeAttempts | apps/gateway/src/services/relay.ts:153-188 | the caller of a valid call is told that it failed only after exactly three attempts |
| GatewayRelay.ConfirmationsAreCounted | apps/gateway/src/services/relay.ts:171 | in every run totalRelayed grows by one for each confirmed attempt and by nothing else |
| GatewayRelay.LandedButReportedFailed | apps/gateway/src/services/relay.ts:161-186 | a run with no failing record in which an attempt times out and lands, and the withdrawal is paid, not counted and reported as failed |
| GatewayRelay.PaidButReportedFailed | apps/gateway/src/services/relay.ts:171-186 | a run in which a paid and counted withdrawal is reported as failed, because its record failed |
| Subscription.DelayIsCapped | apps/gateway/src/services/indexer.ts:116-119 | after every run the reconnect delay is min(1000 * 2^k, 30000), k retries after the last opening |
| Subscription.StoppedIsSilent | apps/gateway/src/services/indexer.ts:109-114 | once stopped, no event creates a socket or schedules a reconnection |
| Subscription.TimersAreAccounted | apps/gateway/src/services/indexer.ts:53-119 | until it is stopped, every closed socket and every failed creation arms one timer, every timer that fires uses one up, and every other connection makes a socket |
| Tiers.SplitIntoTiersWithRemainder | packages/types/src/index.ts:254-270 | the two loops compute the greedy parts and the remainder of the sorted tiers, for every amount |
| Tiers.SplitIntoTiers | packages/types/src/index.ts:230-247 | fails with the remainder when it is positive and returns the greedy parts otherwise |
| Tiers.SortIsSorted | packages/types/src/index.ts:231 | the sorted tiers are a descending permutation of the tiers |
| Tiers.SortedIsUnique | packages/types/src/index.ts:231 | a descending arrangement is unique, so any correct sort gives this one |
| TierTheorems.SplitIsExact | packages/types/src/index.ts:230-270 | parts plus remainder are the amount, parts are descending and drawn from the tiers, the remainder is below every tier, the order of the tiers does not matter, and the split succeeds exactly for remainder 0 |
| TierTheorems.PartsAddUp | packages/types/src/index.ts:235-240 | parts and remainder add up to the amount, for every amount |
| TierTheorems.RemainderIsSmall | packages/types/src/index.ts:235-242 | the remainder is below the smallest tier; a negative amount has no parts and is its own remainder |
| TierTheorems.PartsAreDescending | packages/types/src/index.ts:235-240 | the parts are non-increasing and drawn from the tiers |
| TierTheorems.OrderOfTiersIsIrrelevant | packages/types/src/index.ts:231 | permuted tiers are sorted alike |
| TierTheorems.ChainSplitSucceedsIff | packages/types/src/index.ts:226-247 | on a divisibility chain a split succeeds exactly for multiples of the smallest tier |
| TierTheorems.SplitIsShortest | packages/types/src/index.ts:230-247 | no list of tiers with the same sum is shorter, and one of the same length is a rearrangement |
| TierTheorems.GreedyIsShortest | packages/types/src/index.ts:235-240 | the same for the greedy parts of any sorted chain |
| TierTheorems.UsesBelowRatio | packages/types/src/index.ts:235-240 | each tier but the largest is used fewer times than its ratio to the next larger one |
| TierTheorems.TablesAreChains | packages/types/src/index.ts:200-224 | both tier tables are divisibility chains with the minimum deposit as smallest tier |
| TierTheorems.TablesArePowersOfTen | packages/types/src/index.ts:200-224 | the tiers of USDC are exactly 10^4 to 10^10 of the smallest unit and those of SOL exactly 10^6 to 10^11; the minimum deposit is the first |
| MerklePath.ComputeZeros | apps/web/src/lib/withdraw.ts:58-64 | entry 0 is zero, each next one the hash of the one before with itself, and entry i the root of the all-zero subtree of height i |
| MerklePath.ComputeMerklePath | apps/web/src/lib/withdraw.ts:66-90 | the folded root is the root of the full tree with the commitment at the leaf index and zeros elsewhere, siblings are zero roots, the path bits spell the index, and the circuit folds the same root |
| MerklePath.ZeroRootIsTreeRoot | apps/web/src/lib/withdraw.ts:58-64 | the zero values are the roots of full trees of zero leaves |
| MerklePath.TreeOfFour | apps/web/src/lib/withdraw.ts:66-90 | the left child is hashed first, and the leaves are in order |
| MerklePath.CircuitLevel | packages/circuits/withdrawal/withdrawal.circom:21-48 | the circuit hashes the sibling second for bit 0 and first otherwise |
| MerklePath.PositionOfBits | apps/web/src/lib/withdraw.ts:79-86 | the path bits weighted by their levels sum to the index |
| MerklePath.WrapKeepsPosition | apps/web/src/lib/withdraw.ts:75-86 | the wrap to 32 signed bits does not change the leaf an index names |
| MerklePath.ClientMerklePath | apps/web/src/lib/withdraw.ts:66-90 | the same at the client's depth: 20 siblings in a tree of 1048576 leaves |
| MerklePath.SparseRootBinds | apps/web/src/lib/withdraw.ts:66-90 | unless nodes at one place collide, roots of single-deposit trees are equal exactly for the same commitment at the same index |
| MerklePath.RootBindsLeaves | packages/circuits/withdrawal/withdrawal.circom:21-48 | unless nodes at one place collide, a root determines every leaf of its tree |
| MerklePath.AcceptedPathIsMembership | packages/circuits/withdrawal/withdrawal.circom:21-48 | unless it collides with the tree along the way, a path the circuit accepts against a root starts at that tree's leaf at the position its bits spell |
| Withdrawal.OnlyTheDepositSatisfies | packages/circuits/withdrawal/withdrawal.circom:50-97 | unless the compared hashes collide, the circuit accepts against a deposit's root only that deposit's secret, nullifier, amount and position, so one nullifier hash |
| Withdrawal.WithdrawalInputs | apps/web/src/lib/withdraw.ts:162-197 | the client's inputs satisfy the circuit exactly when the amount exceeds the fee; the root, nullifier hash and recipient are the note's own |
| Withdrawal.ExecuteWithdraw | apps/web/src/lib/withdraw.ts:219-258 | the fee is the rate's share of the amount in basis points rounded toward zero, given by its bounds; recipient, amount, secret, nullifier and leaf position are the note's own; the circuit is satisfied exactly when the amount exceeds the fee, for amounts that are not negative exactly for a positive one and a rate below 10000; the submitted texts read back as the inputs |
| Withdrawal.FeeIs | apps/web/src/lib/withdraw.ts:227-229 | 10000 times the fee is the largest multiple of 10000 up to amount times rate, and for negative amounts the smallest from it on |
| Withdrawal.FeeBelowAmountIff | apps/web/src/lib/withdraw.ts:227-229 | the fee is below the amount exactly for a positive amount and a rate below 10000 basis points |
| Withdrawal.RecomputeCommitment | apps/web/src/lib/withdraw.ts:167-173 | the commitment read back from its bytes is the hash the depositor computed |
| Withdrawal.RecomputeNullifierHash | apps/web/src/lib/withdraw.ts:181-183 | the nullifier hash read back from its bytes is the hash itself |
| Withdrawal.RecipientValue | apps/web/src/lib/withdraw.ts:184 | the recipient's number has the recipient's bytes as its 32-byte form |
| Withdrawal.ComputeNullifierHash | packages/crypto/src/commitment.ts:41-46 | the bytes are the 32-byte form of the nullifier's hash |
| Withdrawal.ComputeCommitment | packages/crypto/src/commitment.ts:26-35 | the bytes are the 32-byte form of the hash of secret, nullifier and amount |
| Bytes.BigintToBytes32BE | packages/crypto/src/commitment.ts:51-58 | the loop fills the bytes with the pairs of the padded hex text |
| Bytes.Bytes32ToBigint | apps/web/src/lib/withdraw.ts:25-29 | the loop reads the bytes as one hex number |
| Bytes.Bytes32RoundTrip | apps/web/src/lib/withdraw.ts:20-29 | below 2^256 reading undoes writing, and the two writers of the source agree |
| Bytes.BigintRoundTrip | apps/web/src/lib/withdraw.ts:20-29 | every 32 bytes are what their own number is written as |
| Bytes.HexToBytes | packages/crypto/src/encryption.ts:126-132 | the loop parses each pair as parseInt does |
| Bytes.HexRoundTrip | packages/crypto/src/encryption.ts:122-132 | parsing hex undoes printing it |
| Bytes.XorIsBitwise | packages/crypto/src/encryption.ts:92 | each bit of an exclusive or is 0 exactly when the two bits agree |
| Bytes.BitOrIs | apps/web/src/lib/deposit.ts:23-29 | each bit of an or is 0 exactly when both bits are |
| KnownAnswers.Base64Vectors | apps/web/src/lib/deposit.ts:105 | the vectors of section 10 of RFC 4648 for one to four bytes |
| KnownAnswers.Utf8Vectors | packages/crypto/src/encryption.ts:142 | one character of each length, as section 3 of RFC 3629 lays it out |
| KnownAnswers.JsonEscapes | packages/crypto/src/encryption.ts:135-141 | the escapes of section 7 of RFC 8259 |
| KnownAnswers.DecimalVectors | packages/crypto/src/encryption.ts:136-138 | decimal text of a positive number, zero and a negative one |
| KnownAnswers.HexVectors | packages/crypto/src/encryption.ts:122-124 | bytes as two lower-case hex digits, the high one first |
| Numerals.BigIntRoundTrip | packages/crypto/src/encryption.ts:134-150 | BigInt undoes decimal printing for every integer |
| Json.RoundTrip | packages/crypto/src/encryption.ts:134-146 | parsing undoes printing for every value of strings, integers, lists and objects |
| Utf8.RoundTripIff | packages/crypto/src/encryption.ts:142-146 | decoding undoes encoding exactly for text that does not start with a byte order mark |
| Base64.RoundTrip | apps/web/src/lib/scan.ts:31-33 | decoding undoes encoding for every byte string |
| Cipher.XorCipher | packages/crypto/src/encryption.ts:81-95 | byte i is the exclusive or of the data's byte i and byte i modulo 32 of the hash of key, nonce and i in four little-endian bytes, spelled out |
| Cipher.StreamIsFree | packages/crypto/src/encryption.ts:81-95 | for any two positions below 2^32 and any two bytes, some suite makes them the key stream's bytes there, so the stream never repeats by construction |
| Cipher.BlockInput | packages/crypto/src/encryption.ts:84-90 | the block is key, nonce and the index in four bytes |
| Cipher.ComputeTag | packages/crypto/src/encryption.ts:97-103 | the tag is the first 16 bytes of the hash of key, nonce and ciphertext |
| Cipher.ConstantTimeEqual | packages/crypto/src/encryption.ts:105-112 | the accumulated or is zero exactly for equal byte strings |
| Cipher.Set | packages/crypto/src/encryption.ts:35-38 | exactly the given stretch of the buffer is replaced |
| Cipher.Open | packages/crypto/src/encryption.ts:67-77 | the plaintext of a message whose tag is the expected one, and nothing of any other |
| Cipher.SealedOpens | packages/crypto/src/encryption.ts:25-30 | sealing then opening gives back the plaintext for every key, nonce and plaintext |
| Cipher.XorStreamTwice | packages/crypto/src/encryption.ts:77 | the cipher undoes itself |
| Cipher.OpensIffSealed | packages/crypto/src/encryption.ts:68-77 | a message opens exactly when it is the sealing, under its own nonce, of what it opens to |
| Cipher.TagIsForced | packages/crypto/src/encryption.ts:72-75 | two accepted messages never differ in the tag alone |
| Cipher.ShortNeverOpens | packages/crypto/src/viewing-key.ts:91-97 | a message shorter than a tag is always refused |
| Cipher.SealedIs | packages/crypto/src/encryption.ts:29-38 | a sealing is the nonce, the enciphered plaintext, and the first 16 bytes of the hash of key, nonce and what was enciphered, spelled out |
| Cipher.ChangedOpensIff | packages/crypto/src/encryption.ts:68-75 | a message with another nonce or ciphertext under a genuine tag opens exactly when the truncated hashes of the two agree |
| Cipher.ChangeIsNoticed | packages/crypto/src/encryption.ts:68-75 | for every such change some suite refuses the changed message |
| Notes.SerializedNoteReads | packages/crypto/src/encryption.ts:134-154 | deserializing undoes serializing for every note |
| Notes.NoteTextIs | packages/crypto/src/encryption.ts:134-143 | the serialized text is this object with these five members in this order |
| Notes.EncryptNote | packages/crypto/src/encryption.ts:21-40 | the result is the ephemeral key, then nonce, enciphered text and tag under the hash of the shared secret and the domain, every byte of them spelled out |
| Notes.DecryptNote | packages/crypto/src/encryption.ts:54-79 | the outcome, with its four refusals, of opening the framed message |
| Notes.NoteRoundTrip | packages/crypto/src/encryption.ts:21-79 | whoever computes the shared secret decrypts exactly the note, for every note and nonce |
| Notes.RecipientReadsNote | packages/crypto/src/encryption.ts:21-79 | the recipient decrypts what was encrypted to its public key, from the agreement of X25519 alone |
| Notes.DecryptsIffAuthentic | packages/crypto/src/encryption.ts:58-78 | a byte string decrypts to a note exactly when it is long enough, starts with an accepted key, and is a sealing of that note under the secret shared with that key |
| Notes.NoteRefusals | packages/crypto/src/encryption.ts:58-75 | too short below 61 bytes, a bad key exactly for a refused one, a bad tag exactly for a body that does not open |
| Notes.StealthIs | packages/crypto/src/stealth.ts:45-59 | an address is the ephemeral public key, the shared secret and the hash of the secret with the index in four little-endian bytes, and none exactly for a refused key |
| Notes.StealthAgrees | packages/crypto/src/stealth.ts:36-94 | sender and recipient derive the same secret and tag for every index |
| Notes.TagsTellIndicesApart | packages/crypto/src/stealth.ts:50-57 | unless the hash collides on the two inputs, tags of one secret differ exactly when the indices differ in their low 32 bits |
| ViewingKey.CredentialRoundTrip | packages/crypto/src/viewing-key.ts:75-140 | the auditor reads exactly the issued scope, key and time; time and ephemeral key of the envelope are the issuer's |
| ViewingKey.CredentialDecryptsIff | packages/crypto/src/viewing-key.ts:75-102 | a credential decrypts to given contents exactly when it seals a text of them under the secret shared with its ephemeral key |
| ViewingKey.CredentialRefusals | packages/crypto/src/viewing-key.ts:79-98 | a refused key and a tag that does not match are told apart, each exactly when it occurs |
| ViewingKey.CredentialTextIs | packages/crypto/src/viewing-key.ts:156-170 | the serialized text is this object with its nested scope, members in this order |
| ViewingKey.ScopeTextIs | packages/crypto/src/viewing-key.ts:25-29 | the hashed text, with and without mints and limit |
| ViewingKey.SerializedCredentialReads | packages/crypto/src/viewing-key.ts:156-185 | deserializing undoes serializing, absent filters included |
| ViewingKey.EncryptForAuditor | packages/crypto/src/viewing-key.ts:39-67 | the ciphertext is nonce, enciphered payload and tag under the hash of the raw secret and the domain, every byte of them spelled out |
| ViewingKey.DecryptViewingCredential | packages/crypto/src/viewing-key.ts:75-102 | the outcome, with its refusals, of opening the credential |
| ViewingKey.ScopeTextDetermines | packages/crypto/src/viewing-key.ts:24-31 | the scope text determines window, limit and joined mints, whatever characters mints hold |
| ViewingKey.ScopedKeysEqualIff | packages/crypto/src/viewing-key.ts:17-31 | for any mints: unless the hashes collide on the two scopes, they share a key exactly when window, limit and joined mints are the same; that those share one needs no hypothesis |
| ViewingKey.ScopedKeysDifferIff | packages/crypto/src/viewing-key.ts:17-31 | for lists of non-empty mints without commas: exactly when window, limit and mint list are the same, no filter counting as an empty one |
| ViewingKey.NoCollisionIsPossible | packages/crypto/src/viewing-key.ts:24-31 | for any two scopes some suite has no collision between them |
| ViewingKey.DistinctScopesShareKeys | packages/crypto/src/viewing-key.ts:20-31 | the promised independence fails: no filter and an empty one, and a mint with a comma and two mints, share a key |
| DepositAccounts.ParsersAgree | apps/gateway/src/services/indexer.ts:287-297 | scanner and indexer accept the same byte strings and read the same fields |
| Notes.BodyReadsIff | packages/crypto/src/encryption.ts:68-78 | a framed body reads as a note exactly when it is a sealing of a text that does |
| DepositAccounts.LayoutParses | apps/web/src/lib/scan.ts:79-88 | the layout of any account is parsed into its own fields |
| DepositAccounts.ParsedFields | apps/web/src/lib/scan.ts:79-88 | the commitment is at 40, the note's length at 72, the note behind it, then the leaf index and the time; exactly accounts long enough for their note are accepted |
| DepositAccounts.ParsedIsLayout | apps/web/src/lib/scan.ts:79-88 | whatever is accepted is the layout of an account, byte for byte |
| Deposits.ExecuteDeposit | apps/web/src/lib/deposit.ts:58-152 | the outcome, with its refusals and interruptions, is one commitment and note for each tier in order, each of its own draw |
| Deposits.DepositTiers | apps/web/src/lib/deposit.ts:87-149 | the loop, which a refused key or an unconfirmed transaction ends |
| Deposits.ContinueMakes | apps/web/src/lib/deposit.ts:87-149 | however it ends, what was sent is made for the first tiers; it ends well exactly when it reaches the last |
| Deposits.OneDeposit | apps/web/src/lib/deposit.ts:87-105 | commitment, ephemeral key and nonce are made of this tier's own draw; none exactly for a refused key |
| Deposits.DepositCarriesItsDraw | apps/web/src/lib/deposit.ts:87-105 | from deposit k the recipient reads the secret and nullifier that spell the bytes of draw k, its amount, mint and ephemeral key; its commitment is the hash of these |
| Deposits.DrawnNullifiersDiffer | apps/web/src/lib/deposit.ts:88-91 | draws with different nullifier bytes give different nullifiers |
| Deposits.HashesDiffer | packages/crypto/src/commitment.ts:41-46 | different nullifiers have different hashes unless Poseidon collides on the two |
| Deposits.WrittenBigEndian | packages/crypto/src/commitment.ts:51-58 | values are written with the most significant byte first |
| Deposits.GenerateSecureRandom | apps/web/src/lib/deposit.ts:23-29 | the shifts and ors spell the bytes as one big-endian number |
| Deposits.BigEndianBelow | apps/web/src/lib/deposit.ts:23-29 | 31 random bytes stay below 256^31 |
| Deposits.BigEndianInjective | apps/web/src/lib/deposit.ts:23-29 | different random bytes are different numbers |
| Deposits.PreviewDeposit | apps/web/src/lib/deposit.ts:41-49 | the preview shows no remainder exactly when the deposit can be split, and then the number of deposits |
| Scanning.ScanDepositsOnChain | apps/web/src/lib/scan.ts:62-112 | the found list is what each account yields, in order, skipping what does not parse or decrypt |
| Scanning.TryAccount | apps/web/src/lib/scan.ts:78-108 | what one account yields, field by field, the token told by its mint's text; whatever fails in it is skipped |
| Scanning.TryIndexed | apps/web/src/lib/scan.ts:30-52 | what one indexed deposit yields, field by field |
| Scanning.ScanForDeposits | apps/web/src/lib/scan.ts:23-56 | the same over the index |
| Scanning.ScannersAgree | apps/web/src/lib/scan.ts:23-112 | scanning the index of any accounts finds, in order, the spendable deposits that scanning the accounts finds |
| Scanning.IndexRowIs | apps/gateway/src/services/indexer.ts:299-313 | the row of an account holds its commitment, leaf index, time, note and the transaction's signature |
| Indexer.DepositIndexer.ProcessTransaction | apps/gateway/src/services/indexer.ts:279-317 | every account that parses is upserted, in order, and the others are skipped |
| Indexer.DepositIndexer.ProcessBatch | apps/gateway/src/services/indexer.ts:259-262 | the loop of a poll processes what the query answers newest first in the opposite order and leaves out failed transactions |
| Indexer.BatchIndexes | apps/gateway/src/services/indexer.ts:259-262 | after a batch the index has a commitment exactly when some transaction that did not fail holds an account with it |
| Indexer.BatchConcat | apps/gateway/src/services/indexer.ts:259-262 | older transactions come first |
| Indexer.RowsAreFirst | apps/gateway/src/services/indexer.ts:299-313 | every row is that of the first account with its commitment, with that transaction's signature |
| Indexer.IndexAllConcat | apps/gateway/src/services/indexer.ts:259-262 | indexing in several transactions is indexing all their accounts, each with its own signature |
| Indexer.ReprocessingIsIdempotent | apps/gateway/src/services/indexer.ts:299-313 | processing the same accounts again, under any signatures and after any others, changes nothing |
| Indexer.IndexAllAdds | apps/gateway/src/services/indexer.ts:299-313 | rows are only added, one a commitment, and every account that parses has its row |
| Indexer.AllIndexedIff | apps/gateway/src/services/indexer.ts:279-317 | every account that parses gets its own row exactly when no two share a commitment |
| Indexer.IndexScanIsChainScan | apps/web/src/lib/scan.ts:23-112 | then scanning the index finds, in order, what scanning the accounts finds |
| Pipeline.DepositSucceedsIff | apps/web/src/lib/deposit.ts:69-75 | a deposit to a reachable recipient succeeds exactly for multiples of the smallest tier, from the minimum on, whose transactions are all confirmed |
| Pipeline.DepositOutcomeIs | apps/web/src/lib/deposit.ts:63-152 | every way a deposit to a reachable recipient ends: below the minimum and not splittable exactly for such amounts, naming the remainder, and interrupted only at the first transaction that is not confirmed |
| Pipeline.InterruptedAddsUp | apps/web/src/lib/deposit.ts:87-149 | however a deposit ends, what was sent and what was not add up to the amount |
| Pipeline.LedgerScan | apps/web/src/lib/scan.ts:75-109 | on a ledger with the deposit's accounts, in order, among any others, the scan finds the deposited notes in order, between what the others yield |
| Pipeline.LedgerScanAnyOrder | apps/web/src/lib/scan.ts:75-109 | in whatever order the ledger is answered, the scan finds the deposited notes and what the other accounts yield, as a multiset |
| Pipeline.EndToEnd | apps/web/src/lib/scan.ts:62-112 | from deposit to scan of a ledger in any order, which may hold other deposits to the same recipient: one recovered deposit for each tier, positive, carrying the numbers of its own draw, with its own account's commitment, and the total found grows by exactly the amount; for draws with different nullifier bytes no two share a nullifier, nor a nullifier hash unless Poseidon collides on them, so each can be paid |
| Pipeline.RecoveredArePayable | apps/web/src/lib/deposit.ts:88-91 | deposits recovered from draws with different nullifier bytes can each be paid |
| Pipeline.EndToEndThroughIndex | apps/web/src/lib/scan.ts:23-56 | the same through the gateway's index, whatever transactions the accounts came in, unless two accounts share a commitment |
| Pipeline.RecoveredRoot | apps/web/src/lib/withdraw.ts:167-179 | a scanned deposit is proved against the tree of the ledger's own commitment and leaf |
| PaymentRequests.RunKeepsTable | apps/gateway/src/routes/requests.ts:106-381 | after any run without negative payments: pending and expired requests were paid nothing, partial ones something but not enough, live ones are paid exactly when amount or count is reached, links are unique |
| PaymentRequests.RunMovesForward | apps/gateway/src/routes/requests.ts:283-381 | however a run goes on, payments only grow, paid, cancelled and expired are final, and the lists of the last two are frozen |
| PaymentRequests.StepKeepsTable | apps/gateway/src/routes/requests.ts:155-419 | each handler keeps that invariant and moves every request forward |
| PaymentRequests.RunMovesAnyhow | apps/gateway/src/routes/requests.ts:106-381 | for payments of any sign: lists only grow, cancelled and expired are final and frozen, and a request paid in part or in full is never pending or expired again |
| PaymentRequests.RunIsUnique | apps/gateway/src/routes/requests.ts:184-191 | for payments of any sign, no two requests share a link |
| PaymentRequests.PaidSurvivesIff | apps/gateway/src/routes/requests.ts:360-375 | exactly which further payment, of either sign, leaves a paid request paid |
| PaymentRequests.PaidCanRevert | apps/gateway/src/routes/requests.ts:349-375 | a run in which a negative payment turns a paid request into a partial one |
| RequestHistory.EndedIff | apps/gateway/src/routes/requests.ts:106-317 | after any run a request is cancelled exactly when, at some moment, its own creator cancelled it while it was pending or partial, and expired exactly when a handler looked at it while it was pending and past its expiry |
| RequestHistory.HistoryIs | apps/gateway/src/routes/requests.ts:226-385 | after any run a request holds exactly the payments it accepted, in order, and as many views as were counted |
| RequestHistory.CreatedIff | apps/gateway/src/routes/requests.ts:155-219 | after any run there is a request exactly when some event made it |
| RequestHistory.CreatedAsDrafted | apps/gateway/src/routes/requests.ts:155-219 | whatever came after, creator, username, link, amount, expiry and number of payments are as its draft says |
| RequestHistory.Refusals | apps/gateway/src/routes/requests.ts:155-419 | what every handler answers, with its refusals in order: a cancellation by anybody but the creator is refused with 403 and leaves the whole table as it is |
| RequestHistory.StepRow | apps/gateway/src/routes/requests.ts:226-419 | what any handler does to a request there is, field by field |
| RequestHistory.StepNew | apps/gateway/src/routes/requests.ts:155-219 | when a handler makes a request, and which |
| Slug.SlugShape | apps/gateway/src/routes/requests.ts:36-46 | 1 to 60 characters of a-z, 0-9 and hyphen, no hyphen in front and never two in a row, for every title and every lower-casing |
| Slug.SlugOfSlug | apps/gateway/src/routes/requests.ts:36-46 | slugging a slug only takes off a hyphen at its end |
| Slug.OnlyTruncationLeavesHyphen | apps/gateway/src/routes/requests.ts:43-44 | a slug that ends in a hyphen has 60 characters |
| Slug.SlugSettles | apps/gateway/src/routes/requests.ts:36-46 | two applications reach the fixed point; one does exactly when truncation left no hyphen at the end |
| Slug.TitleSlug | apps/gateway/src/routes/requests.ts:36-46 | the slug of a tidy title is its lower-cased text with a hyphen for each white space, cut to 60 characters |
| Slug.SpecialsAreDropped | apps/gateway/src/routes/requests.ts:40 | a character that no slug may hold makes no difference inside a title |
| Slug.NothingLeft | apps/gateway/src/routes/requests.ts:45 | a title of which nothing is left is called payment |
| NamePacking.Pack | packages/crypto/src/name-registry.ts:18-25 | the loops compute the 31-byte little-endian chunks |
| NamePacking.HashInputs | packages/crypto/src/name-registry.ts:12-25 | the inputs of the name hash are the chunks of the normalized name |
| NamePacking.PackByte | packages/crypto/src/name-registry.ts:22 | oring a shifted byte into a chunk adds its base-256 digit |
| NamePacking.PackChunk | packages/crypto/src/name-registry.ts:20-23 | the shifted ors are the base-256 sum of the chunk's bytes |
| NamePacking.ChunksFit | packages/crypto/src/name-registry.ts:19-25 | every chunk has at most 31 bytes and so is below 2^248 |
| NamePacking.ChunksEqualIff | packages/crypto/src/name-registry.ts:18-25 | two byte strings give equal chunks exactly when they need as many and differ only in zeros at the end |
| NamePacking.PackingTellsNamesApart | packages/crypto/src/name-registry.ts:12-25 | names without a zero character give equal chunks exactly when they are equal |
| NamePacking.ValidNamesApart | packages/crypto/src/name-registry.ts:116-138 | valid names are packed as they are, in at most two chunks, and no two alike |
| NamePacking.SpellingsHashAlike | packages/crypto/src/name-registry.ts:12-27 | every spelling of a valid name in capitals, with any space around it, gives the name's own hash inputs |
| NamePacking.ValidNameIff | packages/crypto/src/name-registry.ts:116-138 | exactly which names are valid, and which error another one gives |
| NamePacking.ReservedNames | packages/crypto/src/name-registry.ts:128-132 | the names nobody can register |
| RelayerQueue.QueueProcessor.constructor | packages/relayer/src/queue.ts:36-38 | the fields start as the initial state of the protocol |
| RelayerQueue.QueueProcessor.Start | packages/relayer/src/queue.ts:41-53 | takes exactly the Start step |
| RelayerQueue.QueueProcessor.Stop | packages/relayer/src/queue.ts:56-63 | takes exactly the Stop step |
| RelayerQueue.QueueProcessor.ScheduleNextPoll | packages/relayer/src/queue.ts:81-85 | arms one more timer and remembers only that one, unless stopped |
| RelayerQueue.QueueProcessor.Enqueue | packages/relayer/src/routes/jobs.ts:78-103 | takes exactly the Create step; a known nullifier is answered with its row and creates none |
| RelayerQueue.QueueProcessor.PollBegin | packages/relayer/src/queue.ts:87-97 | takes exactly the step up to the first await, both early reschedules included; what it leaves armed is told by TimerStartsPoll |
| RelayerQueue.QueueProcessor.PollFetched | packages/relayer/src/queue.ts:113-124 | takes exactly the step after the query answered |
| RelayerQueue.QueueProcessor.LaunchAll | packages/relayer/src/queue.ts:134-157 | one task and one active job for each fetched job, in order |
| RelayerQueue.QueueProcessor.PollMarked | packages/relayer/src/queue.ts:125-157 | takes exactly the step that marks and launches what was fetched |
| RelayerQueue.QueueProcessor.PollFailed | packages/relayer/src/queue.ts:158-166 | takes exactly the failure step of either query |
| RelayerQueue.QueueProcessor.AttemptRecorded | packages/relayer/src/queue.ts:187-198 | takes exactly the step that counts an attempt |
| RelayerQueue.QueueProcessor.JobRejected | packages/relayer/src/queue.ts:144-153 | takes exactly the step of a rejected job, whichever write failed |
| RelayerQueue.QueueProcessor.TryFailed | packages/relayer/src/executor.ts:110-120 | takes exactly the step to the next try or to failure |
| RelayerQueue.QueueProcessor.TrySent | packages/relayer/src/executor.ts:195-201 | takes exactly the step that submits a transaction |
| RelayerQueue.QueueProcessor.TryConfirmed | packages/relayer/src/executor.ts:195-211 | takes exactly the step of a confirmed transaction |
| RelayerQueue.QueueProcessor.OutcomeRecorded | packages/relayer/src/queue.ts:203-232 | takes exactly the step that records the outcome |
| RelayerQueue.QueueProcessor.ConfirmationNotRecorded | packages/relayer/src/queue.ts:217-220 | takes exactly the step from a failed confirmation write to the failure branch |
| RelayerQueue.QueueProcessor.JobFinally | packages/relayer/src/queue.ts:154-156 | takes exactly the step that gives the slot back |
| RelayerQueue.QueueProcessor.ResetApplied | packages/relayer/src/queue.ts:148-151 | takes exactly the step of a reset that applies |
| RelayerQueue.QueueProcessor.ResetFailed | packages/relayer/src/queue.ts:151-153 | takes exactly the step of a reset that fails |
| GatewayRelay.RelayService.constructor | apps/gateway/src/services/relay.ts:57-60 | no call in flight and nothing counted |
| GatewayRelay.RelayService.SubmitWithdrawal | apps/gateway/src/services/relay.ts:86-90 | refused exactly at capacity, and otherwise takes one place |
| GatewayRelay.RelayService.Prepared | apps/gateway/src/services/relay.ts:92-121 | takes exactly the step of a valid or invalid request |
| GatewayRelay.RelayService.Catch | apps/gateway/src/services/relay.ts:179-189 | the next attempt, or the end of the call |
| GatewayRelay.RelayService.AttemptConfirmed | apps/gateway/src/services/relay.ts:164-171 | takes exactly the step that counts a confirmed attempt |
| GatewayRelay.RelayService.AttemptFailed | apps/gateway/src/services/relay.ts:179-185 | takes exactly the step of a failed attempt, landed or not |
| GatewayRelay.RelayService.Recorded | apps/gateway/src/services/relay.ts:172-185 | takes exactly the step of a stored or failed record |
| GatewayRelay.RelayService.Finish | apps/gateway/src/services/relay.ts:189-191 | ends the call and gives its place back |
| Subscription.HeliusGeyserSubscriber.Connect | apps/gateway/src/services/indexer.ts:53-63 | takes exactly the step of a first call or a due timer |
| Subscription.HeliusGeyserSubscriber.ScheduleReconnect | apps/gateway/src/services/indexer.ts:116-119 | doubles the delay up to the cap and arms one timer |
| Subscription.HeliusGeyserSubscriber.constructor | apps/gateway/src/services/indexer.ts:41-51 | the delay starts at one second, with nothing stopped or scheduled |
| Subscription.HeliusGeyserSubscriber.OnOpen | apps/gateway/src/services/indexer.ts:65-66 | takes exactly the step that resets the delay |
| Subscription.HeliusGeyserSubscriber.OnClose | apps/gateway/src/services/indexer.ts:99-101 | takes exactly the step of a closed socket |
| Subscription.HeliusGeyserSubscriber.Stop | apps/gateway/src/services/indexer.ts:109-114 | takes exactly the step of stopping |
| PaymentRequests.RequestStore.Create | apps/gateway/src/routes/requests.ts:155-219 | table and answer of the creation handler, refusals in the source's order |
| PaymentRequests.RequestStore.ResolveStatus | apps/gateway/src/routes/requests.ts:106-126 | only a pending request past its expiry changes, to expired |
| PaymentRequests.RequestStore.Get | apps/gateway/src/routes/requests.ts:226-251 | table and answer of the view handler |
| PaymentRequests.RequestStore.GetBySlug | apps/gateway/src/routes/requests.ts:392-419 | table and answer of the view through the unique link |
| PaymentRequests.RequestStore.ListBy | apps/gateway/src/routes/requests.ts:258-280 | table and answer of the listing, resolving every match |
| PaymentRequests.RequestStore.CancelRequest | apps/gateway/src/routes/requests.ts:287-317 | table and answer of the cancellation handler |
| PaymentRequests.RequestStore.RecordPayment | apps/gateway/src/routes/requests.ts:328-385 | table and answer of the payment handler |
| PaymentRequests.RequestStore.SumPayments | apps/gateway/src/routes/requests.ts:360 | the fold adds up the payments |
| PaymentRequests.RequestStore.StatusOf | apps/gateway/src/routes/requests.ts:362-375 | the branches compute the status after a payment |

## Left out

- RelayerProtocol: a database operation that times out and still applies later is not modelled, because the source's own recovery (a reset of the row) is only meaningful under the stated model
- RelayerProtocol: when an armed timer fires; its delay is the backoff, or the poll interval when there is none
- RelayerProtocol: `lastError`, the fee column, request validation of POST /jobs and the read routes; they influence no modelled step
- RelayerProtocol: one token mint, so one pool; the program spends a nullifier once in each pool
- RelayerTheorems.SerialSafety: does not promise that every job ends, because a reset after the last attempt and a crash leave rows that no poll picks again
- Tiers.SplitIntoTiersWithRemainder: tiers that are not positive, for which the source's inner loop does not end
- Json.RoundTrip: numbers are integers; fractions, exponents and integers beyond 2^53, which lose precision, are not read
- Json.RoundTrip: characters are Unicode scalar values, so lone surrogates and surrogate escapes are not read
- Utf8.RoundTripIff: malformed bytes are refused where the source's decoder substitutes a replacement character
- Notes.DecryptNote: a decrypted text whose token mint or key is not a string is refused, where the source passes the mint on and reads the key's length
- ViewingKey.DecryptViewingCredential: a decrypted text whose times are not integers or whose mints are not strings is refused, where the source passes them on
- DepositAccounts.ParsersAgree: a timestamp beyond 2^53 is rounded alike by both parsers, and is kept exact here
- Withdrawal.WithdrawalInputs: the circuit's comparison is over integers; circomlib's 64-bit comparator, which agrees with it below 2^64, is not part of this model
- Withdrawal.ExecuteWithdraw: the demo mode and the base58 text of an address, whose decoding is a parameter; for a negative amount, which no deposit makes, the comparison is the one over integers
- Deposits.ExecuteDeposit: a transaction that was not confirmed may still land; it is not among what was sent
- Deposits.PreviewDeposit: the label of the smallest unit
- PaymentRequests.RunKeepsTable: handlers are atomic; the source reads, checks and writes without a transaction, and two payments at once can miss each other
- PaymentRequests.RunKeepsTable: negative payments are excluded; RunMovesAnyhow, PaidSurvivesIff and PaidCanRevert say what holds with them
- PaymentRequests.RunKeepsTable: totals beyond the range of doubles, which become infinite
- PaymentRequests.RequestStore.Create: token, memo, deposit path index and times of the row, the rounding of amounts, and the order of a listing
- GatewayRelay.RunKeepsInv: the missing relayer key, account derivation, the pauses between attempts and the persistence of totalRelayed across restarts
- Backoff.Execute: the error of the last attempt
- Base64.RoundTrip: padding inside the text ends the source's decoder; encoded text has none
- The Rust programs, their Merkle tree and verifier, and proof generation are not part of this model
- Name record deserializers, whose on-chain layout is not part of this model, and the Borsh profile encoding
- Indexer.DepositIndexer.ProcessTransaction: the owner check, the log filter, and the pool, slot and placeholder amount of a row
- Indexer completeness: the cursor is stored before its batch is processed and a poll reads at most 100 signatures, so that every deposit is found is not claimed
- Web pages, configuration, logging, rate limits, media uploads, analytics and deployment scripts
