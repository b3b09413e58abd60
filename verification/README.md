# Aether edge: governed control, durable delivery and data-processing frames

This project models the logic of the Aether edge runtime that other parts rely on most, and proves what that logic
promises. It is self-contained Dafny; `dafny verify dfyconfig.toml` checks all of it.

**Governed Integration control** (`control_*.dfy`). A cloud offer is checked against local gates, audited, durably
claimed, sent to the provider once and answered with a terminal receipt. Any number of `process` calls, startup
recoveries, requeues and acknowledgements interleave over one ledger, and calls can be dropped or the process lost between
any two steps. `control_protocol.dfy` is the small-step machine, `control_ledger.dfy` the atomic ledger transitions,
`control_memory.dfy` the ledger object that performs them in place, `control_offers.dfy` and `control_paths.dfy` what one
call does with its offer, `control_recovery.dfy` and `control_recovery_runs.dfy` startup recovery, `control_reuse.dfy` a
run that reuses a receipt id. Two assumptions are explicit: the spool theorems take receipt ids that are never reused (and show the spool breaks
otherwise), and the ledger survives a crash.

**Observation batches on the cloud link** (`canonical_json.dfy`, `canonical_reader.dfy`, `envelopes.dfy`, `greedy_split.dfy`,
`partition.dfy`). A batch is sealed whole if its worst-case envelope fits 256 KiB; otherwise it is cut, greedily and only between
observations, into parts with derived identities. Texts are canonical JSON (section 3.2 of RFC 8785), carried one
character per byte of UTF-8, so every size is a byte count; a reader by member name gives every batch and envelope back
from its text.

**Data-processing frames** (`frames.dfy`, `observation_gaps.dfy`, `live_tail.dfy`, `frame_*.dfy`). Stored history, an
optional live tail, covariates and commissioned constants become one frame; the domain constructor and the wire codec each
check it again. When a frame is assembled, encoded and accepted is stated as an equivalence each time. Feature values and
ratios are reals.

**Encodings and small machines** (`numerals.dfy`, `decimals.dfy`, `base64url.dfy`, `step_alignment.dfy`,
`watch_bitmap.dfy`, `outbox.dfy`). Canonical integers and decimals, unpadded Base64url (sections 5 and 3.5 of RFC 4648),
the command step tolerance, the subscription bitmap, and store-and-forward.

Four places where the code does less than its surroundings suggest are stated as theorems with an exact condition and
a concrete input:

- a completion keeps the receipt spool exact if and only if its receipt id is new (`CompleteKeepsSpoolIff`, with the run
  `ReuseBreaksSpool`);
- partitioning is attempted only for batches whose whole text is within 16 MiB, although larger ones can be split
  (`PrepareObservationBatches`, with the family `RefusedThoughSplittable`);
- the commissioning checks, meant to fail unsupported shapes at startup, admit a numeric feature without a unit, and a
  processor then rejects every frame of that forecast task (`AssembledFrameArrives`, with the frame
  `UnitlessFrameRefused`);
- an instant after the year 9999 is printed by the encoder and refused by the decoder (`RoundTrip`, with the frame
  `LateFrameRefused`).

Some checks of the code are implied by its other checks, and the equivalences show it: for valid sources the value limits and
provenance counts of an answer (`CheckedIff`, `AcceptedIff`), and for valid frames the provenance shape, source texts and
watermark comparison of the codec (`EncodesIff`, `DecodesIff`), could be left out without changing what is accepted.

What ports answer (clock, resolver, authority, audit, provider, identifier source, history, live state, covariates) is a
parameter. Digests are uninterpreted functions. A checked addition that could only overflow on texts of 2^63 bytes is
plain addition; other word bounds are explicit.

## Model

| member | source | states |
|---|---|---|
| `ControlTheorems.AtMostOneDispatch` | crates/aether-integration-control/src/processor.rs:152-249 | in every run (any interleaving of calls, recoveries, requeues, acknowledgements, drops and crashes) the provider is invoked at most once per job, and only by the call that passed the execution window and all four authorities, had its dispatch authorization audited and then won the claim, in that order and all for one offer whose job, intent digest, target and value the invocation carries, field by field |
| `ControlOffers.EveryEventIsForTheOffer` | crates/aether-integration-control/src/processor.rs:152-523 | a call begun with an offer at any point of any run decides, audits, claims, invokes, stores and returns for that very offer and nothing else in every continuation, on the dispatch and on the rejection path: claims and invocations carry the offered job, digest, target and value, receipts the offered job, target and digest; it reports executed exactly if it won the claim itself and replayed otherwise |
| `ControlTheorems.Agreement` | crates/aether-integration-control/src/processor.rs:255-290 | in every run all successful results for one job, executed, replayed or recovered, carry the identical receipt |
| `ControlTheorems.RunGrows` | crates/aether-integration-control/src/memory.rs:77-136 | over every continuation of every state a claim and its digest binding are never undone, an entry changes only from in progress to complete, and a complete entry never changes again |
| `ControlTheorems.RejectedNeverCalled` | crates/aether-integration-control/src/processor.rs:358-404 | a job whose stored receipt says rejected at the edge has not reached the provider and reaches it in no continuation |
| `ControlTheorems.RejectionsAreTrue` | crates/aether-integration-control/src/processor.rs:358-404 | a stored rejection at the edge is about the offered job, target and digest and reports the reason its own call refused that offer for: the first gate inside the execution window that does not pass, or a cleared dispatch that could not be audited; a complete audit status means the rejection was audited under the record it names |
| `ControlSafety.GateRefusesIff` | crates/aether-integration-control/src/processor.rs:169-249 | inside the window an offer is refused with a code if and only if the first gate that fails (resolver, target, authority, commissioning, delegation, permission, confirmation) names it; outside the window it has expired |
| `ControlSafety.GateOpensIff` | crates/aether-integration-control/src/processor.rs:169-249 | an offer is dispatched if and only if it is inside its window, resolves to its own target and all four authorities hold |
| `ControlPaths.DispatchPath` | crates/aether-integration-control/src/processor.rs:406-523 | from every ledger state with a fresh receipt id and a free position, an offer on a free job that clears every gate and whose authorization is audited is claimed, sent to the provider once and answered if nothing disturbs the call: the history gains exactly those events in that order, and the job ends with a pending receipt that says how the provider ended, or unknown when that could not be audited |
| `ControlPaths.RefusalPath` | crates/aether-integration-control/src/processor.rs:358-404 | from every such state, an undisturbed offer on a free job that a gate refuses is audited and claimed and ends with a pending rejection that names the gate's reason; the provider is not called |
| `ControlPaths.UnauditedPath` | crates/aether-integration-control/src/processor.rs:411-428 | a cleared offer whose authorization cannot be audited is refused for that, never reaches the provider, and its receipt never claims a complete audit |
| `ControlPaths.ReplayPath` | crates/aether-integration-control/src/processor.rs:331-356 | a repeated offer is answered from the ledger: a complete job with the same digest is requeued and its stored receipt returned, any other fails and changes nothing |
| `ControlPaths.LostClaim` | crates/aether-integration-control/src/processor.rs:432-443 | a call that loses the claim falls back to the stored entry, or fails on another digest, and changes nothing |
| `ControlPaths.ExpiredPath` | crates/aether-integration-control/src/processor.rs:169-175 | outside its window an offer on a free job fails and leaves no trace |
| `ControlPaths.RecoveryTurn` | crates/aether-integration-control/src/processor.rs:255-290 | one undisturbed turn of recovery audits the first claim, completes it with an unknown/interrupted receipt and goes on with the rest |
| `ControlTheorems.VerdictsAreTrue` | crates/aether-integration-control/src/processor.rs:450-522 | a stored receipt that reports a provider answer (accepted, rejected, unknown or timed out, told apart) means the history holds exactly one invocation for the job, which ended that way on the reported evidence, and that this was audited under the record the receipt names |
| `ControlTheorems.UnknownsAreTrue` | crates/aether-integration-control/src/processor.rs:450-522 | a stored unknown outcome says why: a recovery closed the claim (with its own audit record, or the claim's marked incomplete), the provider's answer could not be audited (with the claim's record marked incomplete), or the provider left it open |
| `ControlTheorems.EveryDraftPasses` | crates/aether-integration-control/src/wire.rs:644-716 | in every reachable state whatever tuple of stage, decision, failure and evidence a call is about to store passes the receipt table, so building the receipt cannot fail |
| `ControlTypes.ReceiptTable` | crates/aether-integration-control/src/wire.rs:644-716 | a receipt is accepted if and only if its identities, target, digests and time are well-formed and its stage, decision and the presence of failure and evidence are one of seven combinations |
| `ControlTheorems.RunKeeps` | crates/aether-integration-control/src/processor.rs:406-523 | every step of every run keeps the protocol invariant: each event of the history is justified by what came before it, each call's position agrees with the history, and each ledger entry is backed by a claim or a stored receipt |
| `ControlTheorems.StepKeeps` | crates/aether-integration-control/src/processor.rs:331-356 | the same for one step of any kind from any state that satisfies the invariant, replay included |
| `ControlTheorems.RunSpools` | crates/aether-integration-control/src/memory.rs:115-166 | with receipt ids never reused, the exact and gap-free receipt spool survives every run of the protocol |
| `ControlTheorems.UniqueStored` | crates/aether-integration-control/src/memory.rs:92-136 | a justified history stores at most one receipt per job |
| `ControlSafety.UniqueClaim` | crates/aether-integration-control/src/memory.rs:77-90 | a justified history contains at most one winning claim per job key |
| `ControlSafety.SoleInvoker` | crates/aether-integration-control/src/processor.rs:406-454 | the winner of a dispatch claim that has not invoked yet is the only call that could: the job has not been invoked |
| `ControlLedger.SpoolIffValid` | crates/aether-integration-control/src/ports.rs:777-798 | a receipt gets a delivery identity exactly when it passes the receipt checks, and the delivery carries it at the given position under the batch id, digest and send time that belong to it |
| `ControlLedger.CompleteIff` | crates/aether-integration-control/src/memory.rs:92-136 | a completion is accepted if and only if the receipt is about this job and digest and the job either holds that very receipt or is in progress and the receipt can be queued; then the job holds it and a new receipt is pending at the next position under its own identity; a refused one changes no job and no delivery |
| `ControlLedger.CompleteKeepsSpoolIff` | crates/aether-integration-control/src/memory.rs:92-136 | a completion that settles a job keeps the spool invariant if and only if its receipt id is new, because a delivery found under the same id is reused |
| `ControlReuse.ReuseBreaksSpool` | crates/aether-integration-control/src/memory.rs:115-116 | a concrete run from the empty ledger (two claims, two completions with valid receipts under one id) that keeps the spool invariant until the last step and then loses it |
| `ControlLedger.CompleteFresh` | crates/aether-integration-control/src/memory.rs:92-136 | a completion, refused or repeated ones included, keeps the spool exact unless it would settle a job under a used receipt id, and keeps it gap-free when its receipt is valid |
| `ControlLedger.RequeueKeepsSpool` | crates/aether-integration-control/src/memory.rs:138-166 | requeueing keeps the spool exact and gap-free, the jobs, and the set of receipt ids |
| `ControlLedger.RequeuePublishes` | crates/aether-integration-control/src/memory.rs:138-166 | requeueing a complete job succeeds and leaves its receipt pending (at the next position if it was acknowledged, where it was otherwise), unless it was acknowledged and no position is left |
| `ControlLedger.AcknowledgeKeepsSpool` | crates/aether-integration-control/src/memory.rs:196-240 | an acknowledgement keeps the spool; an applied one strictly advances the acknowledged position and accounts for every pending entry it removes; any other changes nothing |
| `ControlLedger.AcknowledgeIff` | crates/aether-integration-control/src/memory.rs:196-240 | on an exact spool an acknowledgement is applied if and only if it is well-formed for this stream, lies beyond the acknowledged position and names a pending receipt by position, batch id and digest; then exactly the receipts up to it leave; it is a duplicate exactly when it repeats the last one |
| `ControlLedger.ClaimKeepsSpool` | crates/aether-integration-control/src/memory.rs:77-90 | claiming keeps the spool exact and gap-free |
| `ControlSpoolRuns.SpoolOverRuns` | crates/aether-integration-control/src/memory.rs:115-166 | after any sequence of claims, completions with fresh ids, requeues and acknowledgements the pending map is exactly the issued positions after the last acknowledged one, and the removed counts plus pending account for every position issued |
| `ControlSpoolRuns.SpoolFromEmpty` | crates/aether-integration-control/src/memory.rs:20-33 | the same for every run from the empty ledger |
| `ControlSpoolRuns.AcksAdvance` | crates/aether-integration-control/src/memory.rs:196-240 | the positions of applied acknowledgements strictly increase over every run |
| `ControlMemory.MemoryLedger.constructor` | crates/aether-integration-control/src/memory.rs:46-50 | a new ledger is empty, with the first position free |
| `ControlMemory.MemoryLedger.Find` | crates/aether-integration-control/src/memory.rs:73-75 | tells what a claim of the job would answer now: nothing is found exactly when a claim would be won, and a claim with the same digest is given exactly the entry found |
| `ControlMemory.MemoryLedger.Claim` | crates/aether-integration-control/src/memory.rs:77-90 | the in-place claim performs exactly the claim transition the protocol interleaves |
| `ControlMemory.MemoryLedger.Complete` | crates/aether-integration-control/src/memory.rs:92-136 | the in-place completion performs exactly the completion transition, its partial effects on failure included |
| `ControlMemory.MemoryLedger.Requeue` | crates/aether-integration-control/src/memory.rs:138-166 | the in-place requeue performs exactly the requeue transition, a consumed position on failure included |
| `ControlMemory.MemoryLedger.Interrupted` | crates/aether-integration-control/src/memory.rs:168-178 | lists every in-progress claim exactly once, in ascending key order |
| `ControlMemory.MemoryLedger.PendingReceipts` | crates/aether-integration-control/src/memory.rs:180-185 | returns the pending receipts with the lowest positions in ascending order, at most the limit, without removing any |
| `ControlMemory.MemoryLedger.Acknowledge` | crates/aether-integration-control/src/memory.rs:187-240 | the in-place acknowledgement with its removal loop performs exactly the cumulative transition; on an exact spool it is applied exactly when it names a pending receipt by position, batch id and digest |
| `ControlRecovery.RecoveryOutcome` | crates/aether-integration-control/src/processor.rs:255-290 | recovery of the listed claims succeeds exactly when the stream has a position left for each; then each former claim holds its own pending unknown/interrupted receipt, no other job changed, and the results are those receipts in order |
| `ControlRecovery.RecoveredShape` | crates/aether-integration-control/src/processor.rs:255-290 | a recovery receipt is about the claimed job, target and digest, says unknown because interrupted, without evidence, and carries its own audit record, or the claim's marked incomplete when recording failed |
| `ControlRecovery.RecoverInterrupted` | crates/aether-integration-control/src/processor.rs:255-290 | on the ledger object: on success no entry is left in progress, every former claim holds its pending unknown/interrupted receipt, entries already complete are untouched, and one receipt is returned per former claim |
| `ControlRecovery.RecoverClaims` | crates/aether-integration-control/src/processor.rs:255-290 | the recovery loop, including its early exit, computes exactly the fold over the claims |
| `ControlRecoveryRuns.RecoverySettlesWithoutCalling` | crates/aether-integration-control/src/processor.rs:250-290 | a recovery begun at any point of any run never calls the provider in any continuation: all it leaves in the history are audits of recovered jobs, unknown/interrupted receipts and recovered results; when it is done every claim it listed is complete, however other calls, drops and crashes interleave |
| `ControlRecoveryRuns.ReachableIsRecoverable` | crates/aether-integration-control/src/ports.rs:857-891 | every ledger a run with fresh receipt ids can leave behind, a crash included, meets what the recovery of the ledger object requires |
| `GreedySplit.GreedyIsOptimal` | crates/aether-cloudlink/src/integration.rs:137-198 | a greedy fill that used up every observation has the fewest parts among all order-preserving splits whose parts fit, where the capacity of a part depends only on its number |
| `GreedySplit.StuckMeansImpossible` | crates/aether-cloudlink/src/integration.rs:159-182 | when the greedy fill meets an observation that does not fit a part of its own, no admissible split exists at all |
| `GreedySplit.StaysAhead` | crates/aether-cloudlink/src/integration.rs:137-198 | after any number of parts no admissible split has placed more observations than the greedy fill |
| `Partition.PrepareObservationBatches` | crates/aether-cloudlink/src/integration.rs:103-198 | the whole operation: a binding error exactly for a wrong integration; a contract error exactly for a bound batch that fails its contract or whose whole text exceeds 16 MiB; otherwise the batch unpartitioned whenever it fits, else at least two parts that are a shortest admissible split in order, each non-empty and passing the contract; for a batch that has not lapsed, a size error exactly when no admissible split exists; a lapsed one is never prepared; every prepared entry is about the integration, generation and time of the batch, and its payload text reads back, member by member, as exactly its own batch |
| `Partition.PayloadDecodes` | crates/aether-integration-contract/src/wire.rs:657-667 | the canonical text of a contract batch, read by member name, gives back the batch: identity, integration, generation, time and schema each under its own name, the observations in order |
| `Partition.EncodesIff` | crates/aether-integration-contract/src/wire.rs:670-720 | a batch is encoded if and only if the topology is valid and of its integration and generation, its identity, generation and time are well-formed, it has 1 to 65536 observations, each well-formed and declared, and its text is at most 16 MiB |
| `Partition.PayloadOrder` | crates/aether-integration-contract/src/codec.rs:313-320 | the members of a batch text stand in canonical key order |
| `Partition.DeliveredBatchArrives` | crates/aether-cloudlink/src/codec.rs:178-229 | end to end: whatever session delivers a sealed batch, decoding the envelope bytes gives that session, stream, position, times, trace and key, and decoding its payload gives exactly that batch |
| `Partition.RefusedThoughSplittable` | crates/aether-integration-contract/src/codec.rs:313-329 | the encoding bound refuses batches that could be split: any declared observation of 256 to 240000 bytes, repeated 65536 times, passes its contract and admits a split, and is still refused |
| `Partition.ShortObservationsSplit` | crates/aether-cloudlink/src/integration.rs:137-198 | whatever the size of the whole batch, observations of at most 240000 bytes always admit a split |
| `Partition.NeverTooLarge` | crates/aether-cloudlink/src/integration.rs:167-175 | so partitioning such a batch succeeds exactly when it has not lapsed |
| `Partition.PartitionBatch` | crates/aether-cloudlink/src/integration.rs:137-198 | the nested loops produce a lossless, order-preserving, shortest admissible split, or a size error only when there is none; the final recheck of a part never rejects and the partition limit is never reached |
| `Partition.Fill` | crates/aether-cloudlink/src/integration.rs:157-182 | the inner loop takes a maximal run of observations, with the running size equal to the recomputed one |
| `Partition.TemplateAdditive` | crates/aether-cloudlink/src/integration.rs:150-182 | the incremental account is exact: the full worst-case template of a part is its empty template plus the joined observations |
| `Partition.PartSeals` | crates/aether-cloudlink/src/integration.rs:184-196 | every admissible part passes decoding against the topology and the final size recheck; sealing it fails only on a lapsed expiry |
| `Partition.WholeIsNoPart` | crates/aether-cloudlink/src/integration.rs:115-127 | a batch too large to send whole cannot be sent as one part |
| `Partition.Sendable` | crates/aether-cloudlink/src/codec.rs:178-229 | any envelope any session can build for an entry whose template fits is within 256 KiB, counted in bytes |
| `Partition.PartsSendable` | crates/aether-cloudlink/src/codec.rs:968-977 | the same for every part of an admissible split, under every session, position, key and signature |
| `Partition.PartIdIdentifier` | crates/aether-cloudlink/src/integration.rs:330-338 | every part identity is a valid identifier of at most 128 bytes after truncation |
| `Partition.PartIdForm` | crates/aether-cloudlink/src/integration.rs:330-338 | a part identity is as much of the batch identity as 128 bytes leave room for, followed by the part number and the hash |
| `Partition.PartIdsDistinct` | crates/aether-cloudlink/src/integration.rs:330-338 | no two parts of one batch share an identity |
| `Partition.EntriesDistinct` | crates/aether-cloudlink/src/integration.rs:99-102 | the prepared entries have pairwise distinct batch ids |
| `Partition.PartIdWidth` | crates/aether-cloudlink/src/integration.rs:330-338 | part identities never get shorter as the part number grows, and are never shorter than the original id |
| `Envelopes.NeverLonger` | crates/aether-cloudlink/src/integration.rs:252-297 | no envelope that passes validation is longer than the worst-case template for its batch id and payload |
| `Envelopes.WorstCaseValid` | crates/aether-cloudlink/src/codec.rs:482-519 | the worst-case template itself passes validation, so the bound is attained |
| `Envelopes.EnvelopeDecodes` | crates/aether-cloudlink/src/codec.rs:461-478 | the text of a valid envelope, read by member name, gives back the envelope, nested descriptor and authentication and absent optional members included |
| `Envelopes.EnvelopeOrder` | crates/aether-cloudlink/src/codec.rs:461-478 | the members of an envelope text stand in canonical key order |
| `Envelopes.DeliveredReadsBack` | crates/aether-cloudlink/src/codec.rs:178-229 | a delivered envelope passes validation, names its session, stream, record, trace and key, its printed numbers parse back to the record's and the session's own, its batch id and digest are those of its own payload, and its text decodes to it |
| `Envelopes.DeliveredIff` | crates/aether-cloudlink/src/codec.rs:178-229 | a record is delivered if and only if session, stream identity, times, trace and key are valid, it has not lapsed, and its payload still decodes, names its batch and has its digest |
| `Envelopes.ReplayKeepsDurableFacts` | crates/aether-cloudlink/src/codec.rs:174-229 | two deliveries of one record, under whatever sessions, traces and keys, parse back to the same durable numbers, descriptor and payload; only the session's own numbers differ |
| `CanonicalJson.ObjectNoLonger` | crates/aether-cloudlink/src/integration.rs:252-297 | an object whose members are each no longer, or absent, is no longer as a whole |
| `CanonicalJson.JoinedSplit` | crates/aether-cloudlink/src/integration.rs:160-166 | joining two non-empty runs of array items costs exactly one separator |
| `CanonicalReader.LookupObject` | crates/aether-integration-contract/src/codec.rs:313-329 | looking a key up in an object text finds the value written under it, or nothing where the member was left out, whatever commas and brackets the values contain |
| `CanonicalReader.SplitJoined` | crates/aether-integration-contract/src/codec.rs:313-329 | cutting a list text at its own commas gives back the list |
| `Numerals.U64Validators` | crates/aether-integration-contract/src/validation.rs:79-98 | the three separate uint64 validators accept exactly the decimal printings of 0 to 2^64-1 (from 1 for the positive forms) and return the printed value |
| `Numerals.U64Errors` | crates/aether-integration-contract/src/validation.rs:79-98 | which error a refused text gets: not canonical exactly for texts that print no number, out of range exactly for numbers beyond the word (or, for the contract, more than 20 characters), not positive exactly for zero |
| `Numerals.CanonicalDecimal` | crates/aether-cloudlink/src/validation.rs:16-27 | printing the value of a canonical digit string gives the string back |
| `Numerals.DecimalCanonical` | crates/aether-integration-control/src/validation.rs:17-25 | the printing of a number is canonical and denotes the number |
| `Decimals.OneSpelling` | crates/aether-integration-contract/src/validation.rs:124-168 | two accepted wire decimals that denote the same rational are the same text |
| `Decimals.OneReducedSpelling` | crates/aether-domain/src/integration.rs:383-404 | the same at any length for domain decimals whose fraction does not end in zero |
| `Decimals.WireIffDomain` | crates/aether-integration-contract/src/validation.rs:124-168 | a text is an accepted wire decimal exactly when the domain accepts it, it has at most 96 characters and its fraction does not end in zero |
| `Decimals.AnotherSpelling` | crates/aether-domain/src/integration.rs:383-404 | every domain decimal has a second domain spelling of the same number, so the domain check alone never gives one spelling |
| `Decimals.SameNumberIffSameReduced` | crates/aether-domain/src/integration.rs:383-404 | two domain decimals denote the same number exactly when dropping trailing fraction zeros (and the sign of zero) makes them the same text |
| `Decimals.ReduceFixes` | crates/aether-domain/src/integration.rs:383-404 | that reduction leaves alone exactly the decimals whose fraction does not end in zero |
| `Base64url.EncodeBytes` | crates/aether-integration-contract/src/validation.rs:218-234 | the chunk loop computes the encoding |
| `Base64url.EncodesNumber` | crates/aether-integration-contract/src/validation.rs:218-234 | the text is the base-64 numeral of the bytes' big-endian number, padded with zero bits to a multiple of six |
| `Base64url.EncodeDecodes` | crates/aether-integration-contract/src/validation.rs:218-234 | decoding an encoding gives the bytes back |
| `Base64url.DecodeEncodes` | crates/aether-integration-contract/src/validation.rs:170-205 | encoding the decoded bytes of any text of the accepted shape gives the text back |
| `Base64url.AcceptedIffEncoded` | crates/aether-integration-contract/src/validation.rs:170-205 | the accepted texts are exactly the encodings within the length bound |
| `Base64url.EncodeInjective` | crates/aether-integration-contract/src/validation.rs:218-234 | different byte strings have different encodings |
| `Base64url.EncodedWithinBound` | crates/aether-integration-contract/src/validation.rs:170-176 | an encoding is accepted exactly for at most 12288 bytes |
| `StepAlignment.AcceptedIffNearGrid` | crates/aether-domain/src/command.rs:69-108 | a value is accepted exactly when it is in range and within the tolerance of some grid value, for offsets of either sign under truncating remainder |
| `StepAlignment.OutOfRangeIff` | crates/aether-domain/src/command.rs:69-78 | a value is out of range exactly when it is below the minimum or above the maximum |
| `StepAlignment.DistanceIsNearest` | crates/aether-domain/src/command.rs:80-88 | the computed distance is the distance to the nearest multiple of the step and is attained |
| `StepAlignment.OneGridValue` | crates/aether-domain/src/command.rs:89-103 | at most one grid value lies within a millionth of the step of an accepted value |
| `StepAlignment.ToleranceBands` | crates/aether-domain/src/command.rs:89-103 | the tolerance is the magnitude of the offset over 2^49, kept between a billionth and a millionth of the step |
| `StepAlignment.GridAccepted` | crates/aether-domain/src/command.rs:69-108 | every exact grid value in range is accepted |
| `WatchBitmaps.WatchBitmap.constructor` | crates/aether-dataplane/src/watch_bitmap.rs:174-189 | a new bitmap watches no slot |
| `WatchBitmaps.WatchBitmap.IsWatched` | crates/aether-dataplane/src/watch_bitmap.rs:194-201 | membership in the set the words stand for; false beyond the last word |
| `WatchBitmaps.WatchBitmap.SetWatched` | crates/aether-dataplane/src/watch_bitmap.rs:205-211 | adds exactly the slot, and nothing beyond the last word |
| `WatchBitmaps.WatchBitmap.ClearWatched` | crates/aether-dataplane/src/watch_bitmap.rs:215-221 | removes exactly the slot, and nothing beyond the last word |
| `WatchBitmaps.WatchBitmap.ClearAll` | crates/aether-dataplane/src/watch_bitmap.rs:224-228 | leaves no slot watched |
| `WatchBitmaps.WatchBitmap.SubscriptionCount` | crates/aether-dataplane/src/watch_bitmap.rs:232-237 | the sum of the population counts is the cardinality of the set |
| `WatchBitmaps.Replay` | crates/aether-dataplane/src/watch_bitmap.rs:194-237 | any operation sequence performed on the words reaches the set of the abstract run |
| `WatchBitmaps.LastTouchDecides` | crates/aether-dataplane/src/watch_bitmap.rs:194-228 | after any run a slot is watched exactly when the last operation that touched it set it |
| `Outbox.StoreAndForward` | crates/aether-application/src/outbox_forwarder.rs:44-79 | in every run with arbitrary publish and acknowledgement failures and concurrent arrivals, the history is exactly the messages enqueued, in order; the publish log with adjacent repeats collapsed is a prefix of it, the outbox is the remaining suffix, and nothing left the outbox unpublished |
| `Outbox.DrainKeeps` | crates/aether-application/src/outbox_forwarder.rs:50-64 | one drain pass keeps that order; it reports success exactly when the whole peeked batch was delivered, and what it reports delivered has left the outbox |
| `Outbox.Forwarder.DrainPass` | crates/aether-application/src/outbox_forwarder.rs:50-64 | the drain loop performs exactly the modelled pass and returns its report, or an error at the first failure; a pass without failure published the oldest entries, as many as the limit allows, in order, and reports that many examined and delivered |
| `Outbox.Forwarder.TakeTurn` | crates/aether-application/src/outbox_forwarder.rs:58-79 | one turn of the loop; the acknowledgement of the head of the queue removes exactly one entry |
| `Outbox.AcknowledgeHead` | crates/aether-application/src/outbox_forwarder.rs:67-79 | acknowledging the published head removes exactly that entry |
| `ObservationGaps.GapIsMaximum` | crates/aether-domain/src/data_processing.rs:1060-1086 | the fold computes the largest distance between neighbouring usable labels of any series, with the window start and the last label as sentinels, never less than the cadence |
| `ObservationGaps.GapOfSamples` | crates/aether-domain/src/data_processing.rs:1060-1086 | the gap depends only on the samples, not on the order, names or limits of the series |
| `ObservationGaps.GapMultiple` | crates/aether-data-processing/src/codec.rs:1384-1391 | on a grid of multiples the gap is a multiple too |
| `LiveTail.MergeLiveTail` | crates/aether-application/src/data_processing.rs:1090-1202 | the loops of the merge compute the specified merge |
| `LiveTail.MergeOutcome` | crates/aether-application/src/data_processing.rs:1090-1202 | all or nothing: the live tail is included exactly when the last label is the cutoff and every live mapping has a finite good or uncertain sample of its own address stamped then; a merge that includes it replaces only the last cell of every mapped series by its sample and quality and marks its provenance as history and live at the cutoff; everything else is unchanged |
| `LiveTail.TailsAre` | crates/aether-application/src/data_processing.rs:1090-1110 | exactly the mappings marked for the live tail take part |
| `LiveTail.MergeFailsIff` | crates/aether-application/src/data_processing.rs:1152-1202 | a merge fails exactly when a sample it would merge violates the type or limits of its feature; rebuilding the segment and its provenance never fails |
| `LiveTail.MergeKeepsGap` | crates/aether-application/src/data_processing.rs:1090-1202 | a merge leaves the observation gap exactly as it was |
| `LiveTail.MergeNeverAddsMissing` | crates/aether-application/src/data_processing.rs:1152-1180 | a merge never adds a missing cell |
| `FrameAssembly.FrameCellCounts` | crates/aether-application/src/data_processing.rs:1475-1516 | the loops count missing, substituted and all cells of history, future and static features |
| `FrameAssembly.FlagsCount` | crates/aether-application/src/data_processing.rs:1484-1500 | the count of a quality flag is the number of cells that carry it |
| `FrameAssembly.MatchedDefinitions` | crates/aether-application/src/data_processing.rs:1408-1427 | a segment that passes the check has exactly the expected feature definitions |
| `FrameAssembly.MatchedSources` | crates/aether-application/src/data_processing.rs:1450-1473 | provenance that passes the check names the expected features of its segment, each once, and nothing else |
| `FrameAssembly.StaticNames` | crates/aether-application/src/data_processing.rs:1316-1338 | the statics of a commissioned binding have the declared static definitions, under distinct names |
| `FrameAcceptance.ConstructorAccepts` | crates/aether-application/src/data_processing.rs:781-1088 | on a validated task and binding, whatever reaches the end of the assembly passes every check of the frame constructor, so the constructor never rejects |
| `FrameRequirements.AssembledIff` | crates/aether-application/src/data_processing.rs:781-1088 | a frame is assembled if and only if horizon and quantiles are within the forecast specification, the answers cover the history and future windows label by label with exactly the declared features, no merged live sample violates its feature, some source was observed, none is late or older than allowed, required issue times are present, the missing cells are within the allowed share of all cells and no gap exceeds the allowed one |
| `FrameRequirements.AssembledSays` | crates/aether-application/src/data_processing.rs:1044-1088 | an assembled frame is made of the merged history and the covariates of this very request and the commissioned statics, with their source entries; its missing share, substituted count, gap and watermark are those of its own cells and sources, and its live-tail flag tells whether the live state was read at the cutoff |
| `FrameRequirements.CheckedIff` | crates/aether-application/src/data_processing.rs:1408-1473 | the segment checks pass exactly when the answer covers the window label by label with exactly the declared features; limits and provenance counts then hold of themselves |
| `FrameRequirements.AcceptedIff` | crates/aether-application/src/data_processing.rs:966-1043 | of the provenance checks only those on time can fail: some source observed, none late, issue times where required, none too old |
| `FrameRequirements.SeriesFlagsCount` | crates/aether-application/src/data_processing.rs:1475-1516 | the count of a flag over all series is the number of cells that carry it |
| `FrameAcceptance.HistoryIsReady` | crates/aether-application/src/data_processing.rs:812-870 | checked and merged history is a regular grid ending at the cutoff, with exactly the declared history features |
| `FrameEncoding.EncoderAccepts` | crates/aether-data-processing/src/codec.rs:500-538 | on a commissioned route, for a cutoff on the cadence grid, an assembled frame passes every cadence, gap, watermark, whole-second, limit and provenance check of the encoder exactly when its instants can be printed |
| `FrameEncoding.ValidateTaskContract` | crates/aether-data-processing/src/codec.rs:140-203 | the checking passes accept exactly the forecast tasks whose identifiers, target, fallback policies, cadence, sample, name, unit and feature limits fit the wire contract |
| `FrameEncoding.ValidateTaskTexts` | crates/aether-data-processing/src/codec.rs:141-175 | the text and fallback part of it, list by list |
| `FrameEncoding.ShapeHolds` | crates/aether-data-processing/src/codec.rs:795-842 | every provenance entry of an assembled frame has its feature on the wire, every feature its entry, and no key repeats |
| `FrameEncoding.GridWholeSeconds` | crates/aether-application/src/data_processing.rs:507-507 | labels that end at a multiple of a whole-second cadence are whole seconds |
| `FrameWire.Fill` | crates/aether-data-processing/src/codec.rs:589-624 | filling the name map entry by entry computes the specified map, or fails at the first invalid or repeated name |
| `FrameWire.FilledSpec` | crates/aether-data-processing/src/codec.rs:657-677 | a map can be filled exactly when the names are valid and distinct, and then it holds exactly the entries |
| `FrameRoundTrip.RoundTrip` | crates/aether-data-processing/src/codec.rs:500-587 | decoding an encoded valid frame gives the same frame with features in name order and numeric limits erased, exactly when every instant has a four-digit year and every number carries a valid unit; otherwise the decoder rejects it |
| `FrameDecoding.DecodesIff` | crates/aether-data-processing/src/codec.rs:540-587 | for every wire value: the decoder accepts it with a frame if and only if the frame is valid, regular, reports its real gap, is within the contract's bounds, has its features in name order without limits, units on every number and four-digit years, and the wire value says that frame field by field, each feature under its name |
| `FrameDecoding.DecodedReencodes` | crates/aether-data-processing/src/codec.rs:540-587 | so whatever is accepted is coherent (history up to the cutoff, covariates right after it, sound samples, one source per feature, nothing later than the cutoff), its gap and watermark are the real ones, and encoding the decoded frame gives the received value back |
| `FrameDecoding.EncodesIff` | crates/aether-data-processing/src/codec.rs:500-538 | a valid frame is encoded to a wire value if and only if it is regular, reports its real gap, is within the contract's bounds and printable, and the value says it field by field; one source entry per feature makes the provenance shape hold of itself |
| `FrameDecoding.ValidIsCoherent` | crates/aether-domain/src/data_processing.rs:1353-1461 | the frame constructor accepts a frame if and only if it is coherent: declared features under distinct names, a sound sample for every label and series, history ending at the cutoff and covariates starting one step later, exactly one source entry of an allowed kind per feature and none besides, no source later than the cutoff, and the newest observed watermark reported |
| `FrameRoundTrip.ReencodesTheSame` | crates/aether-data-processing/src/codec.rs:101-133 | encoding the decoded form gives the same wire value, so a digest of the wire value is unchanged |
| `FrameRoundTrip.NormalSeriesSpec` | crates/aether-data-processing/src/codec.rs:626-639 | the decoded series are the encoded ones, each once, in ascending name order |
| `FrameRoundTrip.SegmentRoundTrip` | crates/aether-data-processing/src/codec.rs:589-655 | one segment decodes to its normal form exactly when its instants parse and its numbers carry units |
| `FrameDelivery.AssembledFrameArrives` | crates/aether-data-processing/src/codec.rs:262-290 | a frame assembled on a commissioned route is decoded by the processor exactly when its years have four digits and every numeric feature declares a unit |
| `FrameExample.ArrivesIff` | crates/aether-application/src/data_processing.rs:781-1088 | a small commissioned route at every printable cutoff: its frame is assembled, valid and encoded, and decoded exactly when its second feature declares a unit and the year has four digits |
| `FrameExample.UnitlessFrameRefused` | crates/aether-data-processing/src/codec.rs:699-709 | a concrete commissioned route with a unitless number: its frame is assembled and encoded, and the decoder refuses it |
| `FrameExample.LateFrameRefused` | crates/aether-data-processing/src/codec.rs:1337-1369 | a concrete frame of the year 10000 that is encoded and that the decoder refuses |

## Left out

- SHA-256, Ed25519, UUID generation and signature checks: digests are functions of their input, an offer is taken as already decoded, session-bound and signature-checked.
- ControlProtocol.Gate: the window is checked once, before resolution and authority, as in the code; nothing is claimed about expiry at execution time.
- Failure codes: the machine keeps one constructor per code and not its wire spelling; ledger and dependency errors of every kind are one failure of the call.
- Provider timeouts: whether the deadline elapsed is a nondeterministic answer of its own.
- ControlTheorems.RunSpools: assumes receipt ids are never reused, as the identifier source promises; what happens otherwise is `CompleteKeepsSpoolIff`.
- Partition.PrepareObservationBatches: per-observation contract checks and topology validity are parameters, the shortened hash of the batch identity is a parameter of the right shape; reading payloads back takes each observation to be one JSON value, which is how it is serialized.
- The payload contract of a delivered record (decoding, the batch it names, its digest): three functions of the payload.
- Canonical JSON of arbitrary values: only the texts of the envelope and batch layers are built, from members listed in canonical order.
- FrameAssembly.StaticNames: writable point addresses and the last-value aggregation rule of live-tail mappings are not part of the binding model.
- FrameRoundTrip.RoundTrip: calendar text is carried as the instant it denotes, with the printable and parseable ranges as checks; request and result envelopes around the frame are not modelled.
- History, covariate and result adapters, quantile checks and processor-result validation.
- IEEE rounding, infinities and the float64 safe-integer rule: values are reals, a live value that is not finite is absent.
- mmap, file creation, permissions and memory ordering of the bitmap: the words are an array.
- Audit-governance facades, session hello and challenge construction, redacted output, error-code tables, publisher, projection outbox and synchronizer: field checks or ports without a stated contract.
- Signed 64-bit numerals: the same argument as for the unsigned ones.
