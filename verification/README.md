# Verification of the log-analysis cores

A Dafny model of six cores of the repository and proofs about them. Each file group follows one part of the program; the
objects the program updates in place are classes whose methods are proved against functions on values, and the theorems
are about those functions and about whole runs.

- **Incident engine** (`Incident*.dfy`). Contributing records are kept in one total order and folded into deployment episodes,
  incrementally or by a full rebuild with identity adoption, shells, late evidence, a finalization frontier, a sliding
  threshold and compaction.
- **Durable journal** (`Journal*.dfy`). A key/value state machine with indexes, batch membership, references, a byte
  account and a prepaid reserve; keys and values are modelled down to their bytes.
- **CloudWatch adapter** (`CloudWatch*.dfy`). Each poll is a step of a read, deliver, acknowledge, checkpoint protocol over
  an arbitrary source, a sink that may refuse and an atomic checkpoint store.
- **Outbox** (`Outbox*.dfy`). Several publishers, lapsing leases, fencing tokens, lost acknowledgements, dead letters and
  crashes; every SQL update is a guarded atomic step on one row.
- **Canonical identity** (`Identity*.dfy`) and **admission** (`Wire*.dfy`, `Materialization.dfy`, `Encoding.dfy`): the bytes
  hashed for a derived identity, the protobuf wire rewriter, the node budget and the projected size.
- **Remediation script** (`Shell.dfy`, `Remediation*.dfy`): the text that applies a patch, run under a semantics of the
  part of the shell language it uses (IEEE Std 1003.1-2017, Shell Command Language, sections 2.2.2 and 2.7.4).

## Assumptions

- Times are integer nanoseconds and an unset time is `None`; Go strings are sequences of bytes, except in the remediation
  part, where a string is a sequence of Unicode characters.
- Fingerprints and the keys derived from them are fields of a record. A claim token is the tuple of what the program
  hashes, which is SHA-256 taken as injective; where the journal seals a value, the hash is any function to 32 bytes,
  the text of a token any function to texts of its format, and the bytes of an envelope any function to bytes of its size.
- The key/value store is an atomic, durable, ordered map. A checkpoint commit is atomic and says whether it happened.
- Clocks, random backoff, queue answers, query answers and free disk space are parameters of the step that uses them.

## What the proofs found

- Startup verification of the journal has two gaps. It does not notice an index entry whose record is missing
  (`JournalVerify.VerifyMissesOrphans`), and it accepts a key whose length prefix is longer than it need be, under which no
  lookup finds the entry (`JournalScan.OverlongIsAccepted`, `JournalScan.VerifyMissesOverlongKeys`). Without them it accepts
  exactly the bytes of the invariant every operation keeps (`JournalScan.AcceptedIsStructured`), so every state a run can
  stop in reopens as itself (`JournalRestart.EveryStateReopens`).
- An event that was read and never acknowledged can be lost for good: before any checkpoint, when the initial lookback
  moves past it and a commit follows (`CloudWatchLoss.AFailedFirstReadIsLost`), and with checkpoints, when the maximum
  lookback moves past it, even if it arrived late, behind its own stream's checkpoint, and nothing ever passed it
  (`CloudWatchLoss.ALateArrivalIsLost`). Over runs that poll in time nothing is lost, and being in time is decided by the
  clock and the times of the outstanding events (`CloudWatchLoss.NoEventIsLost`, `CloudWatchLoss.ClockGuardIsExact`); for
  one poll it is decided by where its window lies (`CloudWatchLoss.WindowGuardIsExact`).
- Times are hashed as 64-bit nanoseconds, so a missing event time and one instant of the year 1754 give one identity
  (`Identity.MissingTimeCollides`). An event time is told apart from all representable ones exactly when it is representable
  (`Identity.EventTimeIsExact`).
- Contents with a null byte pass the checks on proposed edits, which look for one in paths only, and no shell can be given
  the resulting text (`RemediationPaths.ExecutesUnlessNull`).
- A path is cleaned once when a proposal is read and again when the text is built, and the two can differ
  (`RemediationPaths.CleaningTwiceCanDiffer`).
- The check that a lease covers a delivery allows for one send, and a delivery that dead-letters after a failed publish
  makes two. It can end almost a whole timeout past its lease with the dead letter accepted and its mark refused
  (`OutboxPublisher.ADeadLetterOutlastsItsLease`); `OutboxPublisher.CoveredAttemptMarks` gives the exact condition.
- One stored message that does not validate refuses every claim it is part of, so while it is among the oldest it starves
  the messages behind it (`OutboxPublisher.ABrokenMessageStarvesItsSibling`, `OutboxPublisher.CorruptHeadBlocks`).

## Model

| member | source | states |
|---|---|---|
| IncidentTheorems.TopologyIsOneFold | services/static-log-analysis/internal/incident/incident.go:646-797 | in every run of observe, pin and advance that releases nothing, whichever mix of extend, rebuild and evidence arrivals it took, the order is strictly sorted, the episodes of each family are the one left fold over it, and display numbers count from one |
| IncidentTheorems.ArrivalOrderIrrelevant | services/static-log-analysis/internal/incident/incident.go:646-662 | two such runs that leave a family the same contributing records leave it the same episodes, whatever order the records came in |
| IncidentTheorems.DecisionIsFinal | services/static-log-analysis/internal/incident/incident.go:515-573 | once a persistence decision is answered for a record, every later state of a run that releases nothing answers the same incident, deployment, episode start, evidence flag and lateness |
| IncidentTheorems.StepKeepsIntact | services/static-log-analysis/internal/incident/incident.go:221-356 | each input keeps every family a fold of its records and the identity index in agreement with what families hold |
| IncidentReports.RequestedOnce | services/static-log-analysis/internal/incident/incident.go:272-330 | over any run of observations, advances, compactions and pins that does not drop a family, its investigation is requested at most once, and exactly once if the run activates it |
| IncidentReports.VersionChangesAreReported | services/static-log-analysis/internal/incident/incident.go:261-330 | the context version an agent sees of a family changes only together with a report that carries the new version and says that it is requested or updated |
| IncidentReports.DuplicatesRepeat | services/static-log-analysis/internal/incident/incident.go:230-233 | in every run, as long as its identity is remembered, a record offered again is reported as a duplicate of its incident with the lateness and classification of its first report, and requests and changes nothing |
| IncidentReports.WindowCountsAreExact | services/static-log-analysis/internal/incident/incident.go:1026-1045 | in a run that releases nothing a window count of a report is the number of records and evidence whose event time is inside the window, each counted once |
| IncidentIndex.RememberedIsHeld | services/static-log-analysis/internal/incident/incident.go:221-381 | over every run, compactions included, the identity index points to a family for exactly what that family holds, so a remembered identity always finds its family |
| IncidentRuns.ObserveIntact | services/static-log-analysis/internal/incident/incident.go:246-299 | observing a new record either attaches it as evidence without touching the order, or inserts it and leaves the fold of the longer order; the frontier fields move as noted and nothing else changes |
| IncidentRuns.ExtendIntact | services/static-log-analysis/internal/incident/incident.go:672-695 | extending with the newest record, which writes one episode only, gives the same generations as refolding everything |
| IncidentRuns.RebuildIntact | services/static-log-analysis/internal/incident/incident.go:706-719 | a rebuild after an out-of-order arrival gives the generations of a plain refold, releasing nothing |
| IncidentRuns.TargetExact | services/static-log-analysis/internal/incident/incident.go:975-988 | evidence goes to the last same-deployment episode begun by its time, else to the earliest of that deployment, and nowhere when the deployment has none |
| IncidentFold.ReconstructIsFold | services/static-log-analysis/internal/incident/incident.go:726-797 | identity adoption, shells and the final stable sort leave the refold of an order with one inserted record exactly the plain fold |
| IncidentFold.AdoptedStart | services/static-log-analysis/internal/incident/incident.go:924-929 | the prior identity an episode adopts never begins before the episode itself, so adoption changes no start while nothing is released |
| IncidentFold.FoldPrefixIdentity | services/static-log-analysis/internal/incident/incident.go:726-753 | folding further records never changes the start or deployment of an episode already begun |
| IncidentFold.Coarser | services/static-log-analysis/internal/incident/incident.go:675-695 | once a record inserted before an episode start absorbs that start, the longer fold begins episodes only where the old one did |
| IncidentFold.AbsorbedWhole | services/static-log-analysis/internal/incident/incident.go:675-695 | an episode absorbed at its start is absorbed with all its records |
| IncidentFold.SortedUnique | services/static-log-analysis/internal/incident/incident.go:646-662 | the order is total: two sorted lists of the same records are the same list |
| IncidentThreshold.ThresholdExact | services/static-log-analysis/internal/incident/incident.go:1061-1089 | after any fold the start of the satisfied threshold is the least eligible endpoint whose half-open five-minute window holds five eligible records, and it is unset exactly when no endpoint anywhere has such a window |
| IncidentThreshold.SearchAfter | services/static-log-analysis/internal/incident/incident.go:1122-1133 | the binary search returns the boundary between times up to the bound and times after it |
| IncidentThreshold.CountInSortedWindow | services/static-log-analysis/internal/incident/incident.go:1116-1133 | the two binary searches count exactly the events the half-open window test accepts, and zero for an unset watermark |
| IncidentCompaction.CompactionKeepsIdentity | services/static-log-analysis/internal/incident/incident.go:383-430 | one compaction of a well-formed family with nothing pinned releases only leading episodes that retain nothing; every other keeps its assigned start, deployment, display number and exactly its retained records, the generation count does not move, and the family stays well formed |
| IncidentCompaction.IntactIsWellFormed | services/static-log-analysis/internal/incident/incident.go:706-753 | every family nothing was released from, with observed time never behind event time, is well formed, so the compaction theorem applies to it and then to its own result |
| IncidentCompaction.ReconstructKeepsPlaces | services/static-log-analysis/internal/incident/incident.go:726-797 | refolding what a release left puts every live episode and every shell back in its former place |
| IncidentCompaction.SuffixFold | services/static-log-analysis/internal/incident/incident.go:383-430 | with punctual records, folding what remains drops whole leading episodes and only the released records of the next one |
| IncidentDecisions.CompactionKeepsDecisions | services/static-log-analysis/internal/incident/incident.go:383-430 | compacting a well-formed family with nothing pinned changes the persistence decision of nothing it retains, record or evidence, and leaves every evidence attached to its target |
| IncidentDecisions.AdvanceKeepsDecisions | services/static-log-analysis/internal/incident/incident.go:301-356 | with nothing pinned and every family well formed, a decision answered for an identity that an Advance does not forget is answered the same afterwards, compaction and all |
| IncidentDecisions.IntactIsAttached | services/static-log-analysis/internal/incident/incident.go:862-878 | every family nothing was released from has its evidence attached to its target |
| IncidentFinality.DecisionsOutliveCompaction | services/static-log-analysis/internal/incident/incident.go:301-573 | over a run that compacts as it goes, pins nothing, observes no record before it happens and tears no episode: a decision once answered is answered the same in every later state that remembers the identity |
| IncidentFinality.ObserveKeepsFamilyDecision | services/static-log-analysis/internal/incident/incident.go:246-299 | an observation changes no decision a family has answered, whatever it has released, unless the record begins an episode in front of one that lost its beginning |
| IncidentTiers.RefoldIsTiered | services/static-log-analysis/internal/incident/incident.go:706-797 | the refold after an out-of-order arrival leaves the shells where they are and makes the plain fold of the longer order behind them, under the start already assigned to its first episode |
| IncidentTiers.ArrivalKeepsTiers | services/static-log-analysis/internal/incident/incident.go:672-719 | an arrival, by extending or by rebuilding, keeps that shape and the start and deployment of every episode begun before it |
| IncidentTiers.ReleaseIsTiered | services/static-log-analysis/internal/incident/incident.go:383-430 | a release turns the episodes it empties into shells and leaves the fold of the rest behind them |
| IncidentValidation.DecisionsValidate | services/static-log-analysis/internal/incident/incident.go:577-621 | every decision answered in a run that releases nothing passes the check made of it before it is stored: the record is behind the frontier, of the incident and the deployment, late only as evidence, and a contribution lies between the episode start and its quiet time |
| IncidentValidation.CompactedDecisionsValidate | services/static-log-analysis/internal/incident/incident.go:577-621 | so does every decision answered in a run that compacts |
| IncidentRelease.ReleasedWasFrozen | services/static-log-analysis/internal/incident/incident.go:383-430 | a record or evidence that a compaction releases was strictly behind the finalization frontier, pins or not |
| IncidentRelease.RunIsBounded | services/static-log-analysis/internal/incident/incident.go:958-973 | after any run the frontier of each family is at or past everything its watermark or the wall clock could release |
| IncidentRelease.ReturnsAsEvidence | services/static-log-analysis/internal/incident/incident.go:246-270 | a forgotten identity that arrives again at a family that passed it becomes evidence and leaves the order alone |
| IncidentRelease.ReleasedNeverContributesAgain | services/static-log-analysis/internal/incident/incident.go:317-430 | over any run, a record released while its family is held is never a contribution again as long as the family is held |
| IncidentSteps.SearchPosition | services/static-log-analysis/internal/incident/incident.go:664-670 | the binary search finds exactly the position where the record keeps the order sorted |
| IncidentSteps.AddContribution | services/static-log-analysis/internal/incident/incident.go:1061-1089 | one contribution by the binary window count agrees with the plain definition |
| IncidentSteps.FoldEpisodes | services/static-log-analysis/internal/incident/incident.go:726-753 | the loop computes the left fold |
| IncidentSteps.LeastAssignment | services/static-log-analysis/internal/incident/incident.go:762-797 | scanning the records of an episode in any order finds the least assigned prior index at or after the cursor |
| IncidentSteps.AdoptAssignedIdentities | services/static-log-analysis/internal/incident/incident.go:762-807 | the adoption loop and the shells it leaves are those of the recursive definition |
| IncidentSteps.GenerationForEvidence | services/static-log-analysis/internal/incident/incident.go:975-988 | the backward scan finds the evidence target |
| IncidentSteps.AttachAndNumber | services/static-log-analysis/internal/incident/incident.go:862-906 | attaching retained evidence in any iteration order gives each episode exactly the evidence aimed at it, with its ordinal and status |
| IncidentSteps.PruneOrdered | services/static-log-analysis/internal/incident/incident.go:387-430 | the pass over the order keeps exactly the records not releasable and reports exactly the released identities |
| IncidentSteps.PruneEvidence | services/static-log-analysis/internal/incident/incident.go:387-430 | the pass over the evidence keeps exactly what is not releasable and reports exactly the rest |
| IncidentEngine.FamilyObject.Insert | services/static-log-analysis/internal/incident/incident.go:664-670 | insertion in place adds the record to the map and the order and reports whether it is the newest |
| IncidentEngine.FamilyObject.ExtendWith | services/static-log-analysis/internal/incident/incident.go:675-695 | extend in place, with the sortedness its binary window search relies on kept |
| IncidentEngine.FamilyObject.RebuildEpisodes | services/static-log-analysis/internal/incident/incident.go:706-719 | rebuild in place |
| IncidentEngine.FamilyObject.ObserveRecord | services/static-log-analysis/internal/incident/incident.go:246-299 | one observation by a family: the whole new state and everything reported of it are those of the model |
| IncidentEngine.FamilyObject.AdvanceTo | services/static-log-analysis/internal/incident/incident.go:301-356 | one advance of a family moves frontier, statuses and investigation as the model does, and finds the first generation whose cluster lies behind the frontier |
| IncidentEngine.FamilyObject.ReportAdvance | services/static-log-analysis/internal/incident/incident.go:317-349 | the reports of an advance are the investigation it requests and then, in order, every other generation that went from active to quiet |
| IncidentEngine.FamilyObject.CompactRecords | services/static-log-analysis/internal/incident/incident.go:362-430 | prune and the rebuild it triggers leave the model's compacted family and forget exactly the released identities |
| IncidentEngine.EngineObject.Observe | services/static-log-analysis/internal/incident/incident.go:221-299 | the whole engine state and the report after an observation; a refused fingerprint and a known identity change nothing, and a known identity always finds its family |
| IncidentEngine.EngineObject.AdvanceOne | services/static-log-analysis/internal/incident/incident.go:317-381 | one family advanced, reported, compacted and dropped exactly when nothing it holds still matters |
| IncidentEngine.EngineObject.Advance | services/static-log-analysis/internal/incident/incident.go:301-356 | every family in the order of their names gives the next engine of the model and its reports in that order |
| IncidentEngine.EngineObject.DecisionFor | services/static-log-analysis/internal/incident/incident.go:518-573 | the lookups over maps and generations answer the model's persistence decision |
| JournalKeys.KeyReadsBack | services/static-log-analysis/internal/journal/keys.go:33-117 | every key the journal writes parses back to exactly what built it |
| JournalKeys.EncodeInjective | services/static-log-analysis/internal/journal/keys.go:33-68 | two different keys of any namespaces never share their bytes |
| JournalKeys.PendingKeyOrder | services/static-log-analysis/internal/journal/keys.go:53-58 | pending keys are ordered as bytes exactly by priority, signed received time and record id |
| JournalKeys.ClaimKeyOrder | services/static-log-analysis/internal/journal/keys.go:60-63 | claim keys are ordered exactly by signed expiry and record id |
| JournalKeys.CommittedKeyOrder | services/static-log-analysis/internal/journal/keys.go:65-68 | committed keys are ordered exactly by signed commit time and record id |
| JournalKeys.ScanIsPrefix | services/static-log-analysis/internal/journal/journal.go:1304-1313 | an iterator from a prefix to its computed end visits exactly the strings with that prefix |
| JournalKeys.RefScanIsExact | services/static-log-analysis/internal/journal/journal.go:1170-1206 | a reference scan for one record returns that record's references and nothing else, for live and original references |
| JournalKeys.NamespaceScanIsExact | services/static-log-analysis/internal/journal/keys.go:31-31 | a namespace scan returns exactly that namespace |
| JournalModel.KeySizeIsLength | services/static-log-analysis/internal/journal/journal.go:1516-1526 | the account charges a key exactly the length of its bytes |
| JournalVerify.InvariantIsVerify | services/static-log-analysis/internal/journal/journal.go:1540-1831 | for a store whose keys are their canonical bytes, the invariant is exactly what startup verification checks together with the absence of orphaned index entries |
| JournalVerify.VerifyMissesOrphans | services/static-log-analysis/internal/journal/journal.go:1540-1831 | verification accepts a lone pending entry without a record: a concrete state it passes and the invariant refuses |
| JournalScan.AcceptedIsStructured | services/static-log-analysis/internal/journal/journal.go:1540-1831 | over byte keys: startup accepts a store that has no orphaned index entry and only canonical keys exactly when it holds the bytes of entries that satisfy the invariant |
| JournalScan.OverlongIsAccepted | services/static-log-analysis/internal/journal/journal.go:1540-1831 | in any store that satisfies the invariant, any entry but an index or a batch can be respelled with an overlong length prefix; startup still accepts the store, without an orphan, and no lookup of the entry finds it |
| JournalScan.VerifyMissesOverlongKeys | services/static-log-analysis/internal/journal/journal.go:1540-1831 | a concrete store: one tombstone under an overlong key is accepted, and its identity is not known to be quarantined |
| JournalScan.EveryStateIsScanned | services/static-log-analysis/internal/journal/journal.go:1540-1831 | the bytes of every state of every run from the empty journal are accepted by the scan over byte keys |
| JournalRestart.ScanIsExact | services/static-log-analysis/internal/journal/journal.go:1540-1831 | the scan of one entry by startup verification, run on the bytes of its key and of its value, accepts it exactly when its parser takes the key and the invariant accepts the entry |
| JournalRestart.EntryReadsBack | services/static-log-analysis/internal/journal/journal.go:1540-1831 | every key and every value of a journal that keeps the invariant is read back from its bytes as itself |
| JournalRestart.ValidIsVerify | services/static-log-analysis/internal/journal/journal.go:1540-1831 | a journal object is valid exactly when startup verification accepts its entries and its account and it has no orphaned index entry |
| JournalRestart.ValidReopens | services/static-log-analysis/internal/journal/journal.go:1540-1831 | a valid journal reopens: verification accepts it, every entry decodes to itself and the account recomputed equals the account kept |
| JournalRestart.EveryStateReopens | services/static-log-analysis/internal/journal/journal.go:1540-1831 | so does every state of every run from the empty journal, wherever it stops |
| JournalVerify.ClaimsComeOutInOrder | services/static-log-analysis/internal/journal/journal.go:654-696 | what a claim takes is in priority, received time and id order, and nothing left behind is more urgent |
| JournalVerify.SweepLeavesNothingDue | services/static-log-analysis/internal/journal/journal.go:1082-1110 | a sweep that stopped short of its limit left no lapsed claim: the early break misses nothing |
| JournalInvariant.MoveAllStructured | services/static-log-analysis/internal/journal/journal.go:615-905 | a batch of distinct expiries, claims, renewals or commits keeps the whole invariant and rewrites exactly the named records |
| JournalInvariant.RemoveStructured | services/static-log-analysis/internal/journal/journal.go:1134-1169 | removing a record with its index, reserve and references, and any batch left without live members, keeps the invariant |
| JournalInvariant.RemoveAllStructured | services/static-log-analysis/internal/journal/journal.go:944-1001 | removing any list of records keeps the invariant and leaves every other record as it was |
| JournalInvariant.QuarantineStructured | services/static-log-analysis/internal/journal/journal.go:907-942 | replacing a record by a tombstone keeps the invariant |
| JournalAppend.AppendStructured | services/static-log-analysis/internal/journal/journal.go:466-613 | appending an admissible batch to a journal that satisfies the invariant gives one that satisfies it |
| JournalAppend.AppendRecord | services/static-log-analysis/internal/journal/journal.go:551-599 | an append leaves every record it finds unchanged and creates only fresh pending records of identities that are not quarantined |
| JournalEvents.EventStructured | services/static-log-analysis/internal/journal/journal.go:466-1112 | every durable mutation, append, sweep, claim, renewal, commit, quarantine and compaction, takes an invariant state to an invariant state |
| JournalEvents.EveryStateIsStructured | services/static-log-analysis/internal/journal/journal.go:466-1112 | hence every state of every run from an invariant state satisfies it |
| JournalEvents.EventDrains | services/static-log-analysis/internal/journal/journal.go:1428-1515 | apart from admission and the expiry sweep no mutation raises the account, and renewing leaves it exactly alone: a full journal can drain |
| JournalEvents.SupersededNeverReturns | services/static-log-analysis/internal/journal/journal.go:1114-1123 | under a clock that never goes back, a token superseded by renewal, expiry, re-claim or commit is never honoured again while the record is held |
| JournalEvents.CurrentIsLastIssued | services/static-log-analysis/internal/journal/journal.go:666-687 | in every run from the empty journal a claimed record carries the token most recently issued for it |
| JournalEvents.OnlyTheLatestTokenWorks | services/static-log-analysis/internal/journal/journal.go:767-942 | a record is renewed, committed or quarantined only with the token last issued for it and before that claim expires |
| JournalAccount.RestateTotal | services/static-log-analysis/internal/journal/journal.go:1428-1525 | changing a record's state moves the accounted total by exactly the change of its own footprint |
| JournalAccount.MoveFootprint | services/static-log-analysis/internal/journal/types.go:26-35 | the reserve prepays the largest claim for any owner up to 128 bytes: claiming and committing never grow a footprint, renewing leaves it equal |
| JournalAccount.ExpireFootprint | services/static-log-analysis/internal/journal/types.go:26-35 | an expiry always grows the footprint, and by at most the reserve |
| JournalAccount.MoveAllDrains | services/static-log-analysis/internal/journal/journal.go:666-696 | claiming, renewing and committing any batch never raise the accounted total |
| JournalAccount.RemoveAllDrains | services/static-log-analysis/internal/journal/journal.go:944-1001 | compacting never raises the accounted total |
| JournalAccount.QuarantineDrains | services/static-log-analysis/internal/journal/journal.go:907-942 | quarantining a claimed record never raises the accounted total |
| JournalAccount.TombstoneIsSmaller | services/static-log-analysis/internal/journal/codec.go:402-414 | a tombstone costs no more than the claimed record it replaces |
| JournalOps.ScanIndex | services/static-log-analysis/internal/journal/journal.go:1082-1110 | an index scan lists exactly the index entries of its namespace in byte order |
| JournalOps.ExpireClaims | services/static-log-analysis/internal/journal/journal.go:1069-1112 | the sweep returns the earliest due claims to pending, at most the limit, and skips none that is due |
| JournalOps.ClaimPending | services/static-log-analysis/internal/journal/journal.go:653-691 | the claim takes the first pending records in index order, each with a fresh attempt and token, and fails only when an attempt counter is exhausted |
| JournalOps.RenewAll | services/static-log-analysis/internal/journal/journal.go:767-837 | the batch is renewed when every presented claim is distinct and good, and rejected whole otherwise |
| JournalOps.CommitAll | services/static-log-analysis/internal/journal/journal.go:845-905 | the batch is committed when every presented claim is distinct and good or already satisfied, and rejected whole otherwise |
| JournalOps.AdoptAll | services/static-log-analysis/internal/journal/journal.go:704-755 | a restarted worker receives its own unexpired claims, soonest to lapse first, with the very tokens they carry |
| JournalRemoval.RemoveBatchRefs | services/static-log-analysis/internal/journal/journal.go:1134-1169 | the loop over an overlay leaves the database as if the record had been removed in one step |
| JournalRemoval.QuarantineOps | services/static-log-analysis/internal/journal/journal.go:907-942 | the overlay of a quarantine is its one-step meaning, with exact priority deltas |
| JournalRemoval.CompactOps | services/static-log-analysis/internal/journal/journal.go:944-1001 | the overlay removes the oldest records past their safety delay, at most the limit, skipping none; it stops early only when a commit time overflows |
| JournalAdmission.Screen | services/static-log-analysis/internal/journal/journal.go:475-512 | the batch is refused exactly when an admission is invalid or two of one identity disagree |
| JournalAdmission.Prepare | services/static-log-analysis/internal/journal/journal.go:504-513 | the distinct admissions in id order, each the first of its name |
| JournalAdmission.FindMember | services/static-log-analysis/internal/journal/codec.go:131-137 | the binary search finds the member of that id, or reports that none has it |
| JournalAdmission.History | services/static-log-analysis/internal/journal/journal.go:1208-1265 | the identity check reports a conflict exactly when a retained batch disagrees, and otherwise counts the batches that name it |
| JournalAdmission.AdmitOne | services/static-log-analysis/internal/journal/journal.go:539-599 | one pass of the append loop admits exactly when nothing retained disagrees and there is room for one more batch, and adds exactly that admission's entries |
| JournalAdmission.AdmitAll | services/static-log-analysis/internal/journal/journal.go:537-609 | the loop succeeds exactly on an admissible batch and leaves the overlay that appends it, with exact priority deltas |
| JournalEngine.Journal.constructor | services/static-log-analysis/internal/journal/journal.go:226-313 | an empty directory opens as a valid, empty, healthy journal |
| JournalEngine.Journal.NextPriorities | services/static-log-analysis/internal/journal/journal.go:1432-1448 | the deltas give the exact count of each priority, or report an overflow of a counter that would grow |
| JournalEngine.Journal.NextUsage | services/static-log-analysis/internal/journal/journal.go:1449-1476 | the running account never goes below zero on the way and ends at exactly the new total; it overflows only past 64 bits |
| JournalEngine.Journal.CommitMutation | services/static-log-analysis/internal/journal/journal.go:1428-1515 | a mutation is applied whole with its exact account, or nothing changes; it succeeds whenever no counter or sum leaves 64 bits and, where capacity is asked for, the account and the reserve fit the limit and the free space |
| JournalEngine.Journal.AppendBatch | services/static-log-analysis/internal/journal/journal.go:466-613 | an admissible new batch is appended exactly, and always when there is room for it; a replay changes nothing and succeeds exactly when it names the same members; everything else is refused unchanged |
| JournalEngine.Journal.ClaimRecords | services/static-log-analysis/internal/journal/journal.go:615-696 | an expiry sweep of its own and then the most urgent pending records handed out with their tokens; a failed claim leaves the state before or after the sweep |
| JournalEngine.Journal.AdoptClaims | services/static-log-analysis/internal/journal/journal.go:704-755 | adopting is an observation: nothing durable changes and no token is issued |
| JournalEngine.Journal.RenewClaims | services/static-log-analysis/internal/journal/journal.go:767-837 | all presented claims good and the account unchanged, or one stale member and nothing changed |
| JournalEngine.Journal.MarkCommittedBatch | services/static-log-analysis/internal/journal/journal.go:845-905 | all presented claims committed and the account not raised, or nothing changed |
| JournalEngine.Journal.QuarantineRecord | services/static-log-analysis/internal/journal/journal.go:907-942 | exactly a claim that is honoured now becomes a tombstone and leaves its batches; a stale one changes nothing |
| JournalEngine.Journal.Compact | services/static-log-analysis/internal/journal/journal.go:944-1001 | the earliest expendable records, at most the limit, leave with their references, and the account does not rise |
| JournalCodec.StoredReadsBack | services/static-log-analysis/internal/journal/codec.go:225-293 | a stored record is read back exactly when it is one the journal may hold, and refused otherwise |
| JournalCodec.StoredSizeIsLength | services/static-log-analysis/internal/journal/codec.go:225-236 | the account charges a record exactly its encoded length |
| JournalCodec.BatchReadsBack | services/static-log-analysis/internal/journal/codec.go:48-109 | whatever fits the fields of a batch is read back when it is one the decoder accepts (at most 10,000 members, no more live than original, digests of 32 bytes) and refused otherwise |
| JournalCodec.BatchSizeIsLength | services/static-log-analysis/internal/journal/codec.go:48-60 | the account charges a batch exactly its encoded length |
| JournalCodec.TombstoneReadsBack | services/static-log-analysis/internal/journal/codec.go:402-465 | whatever fits the fields of a tombstone, with or without a digest, is read back when its reason, attempt, time, priority and digest are acceptable and refused otherwise, and its length is the accounted size |
| JournalCodec.MagicSeparates | services/static-log-analysis/internal/journal/codec.go:295-311 | a value sealed under one magic never opens under another of the same length |
| JournalCodec.WriteBatchPayload | services/static-log-analysis/internal/journal/codec.go:48-60 | the writing loop produces the two length-prefixed lists in order |
| JournalCodec.ReadMembers | services/static-log-analysis/internal/journal/codec.go:62-109 | the reading loop accepts and returns what the recursive reader does |
| JournalCodec.ReadIds | services/static-log-analysis/internal/journal/codec.go:62-109 | the reading loop of the live list does too |
| CloudWatchModel.FurthestIsMaximum | services/static-log-analysis/internal/cloudwatch/adapter.go:491-503 | the position a poll would commit for a stream is that of an event of the answer, at the greatest time any timestamped event of that stream has |
| CloudWatchModel.EverythingIsSent | services/static-log-analysis/internal/cloudwatch/adapter.go:432-461 | every accepted event of an answer is delivered by this poll or was by this process before |
| CloudWatchModel.NothingIsSentTwice | services/static-log-analysis/internal/cloudwatch/adapter.go:432-461 | no identity is delivered twice in one poll, and none this process remembers |
| CloudWatchRuns.InvStep | services/static-log-analysis/internal/cloudwatch/adapter.go:396-487 | under failures and restarts the process believes what the store holds and remembers only acknowledged deliveries |
| CloudWatchRuns.DurableNeverDecreases | services/static-log-analysis/internal/cloudwatch/adapter.go:508-533 | no step moves a durable position back or drops one |
| CloudWatchRuns.PositionsNeverDecrease | services/static-log-analysis/internal/cloudwatch/adapter.go:508-555 | over any run of polls, failed reads, refused acknowledgements, failed commits and restarts no stream's durable position decreases |
| CloudWatchRuns.CommitSettlesEverythingRead | services/static-log-analysis/internal/cloudwatch/adapter.go:463-487 | a poll that moves any checkpoint has had every event of its answer acknowledged or permanently refused |
| CloudWatchRuns.PassedWasRead | services/static-log-analysis/internal/cloudwatch/adapter.go:421-487 | an event that was read before and that a poll newly passes is in the answer that passed it, when it lies in the window |
| CloudWatchRuns.NothingCoveredIsSkipped | services/static-log-analysis/internal/cloudwatch/adapter.go:396-487 | under an honest source no poll passes an event nobody took while its window still reaches back to the outstanding ones |
| CloudWatchRuns.UncoveredCanBeSkipped | services/static-log-analysis/internal/cloudwatch/adapter.go:565-589 | an outstanding event before the window start can be passed by a perfectly honest answer |
| CloudWatchRuns.PassingGuardIsExact | services/static-log-analysis/internal/cloudwatch/adapter.go:565-589 | whether any honest answer could make a poll move a checkpoint past an event that was read ahead of it and that nobody took is decided, in both directions, by whether its window is empty or starts no later than all such events |
| CloudWatchLoss.LostStaysLost | services/static-log-analysis/internal/cloudwatch/adapter.go:557-591 | once there is a checkpoint, an event read and never taken that the window no longer reaches is behind the window of every later poll and in no later answer, over any run against an honest source |
| CloudWatchLoss.WindowGuardIsExact | services/static-log-analysis/internal/cloudwatch/adapter.go:565-591 | whether some honest answer could make a poll commit and so lose an event for good is decided, in both directions and for late arrivals like all others, by where its window lies: it is empty, or reaches every event nobody took, or the first window after a first checkpoint will |
| CloudWatchLoss.ClockGuardIsExact | services/static-log-analysis/internal/cloudwatch/adapter.go:557-591 | after a run that begins with nothing outstanding and polls in time, the clock says that the next poll is in time exactly when its window starts no later than every event read and not taken, late arrivals behind their own checkpoint included, which is exactly when nothing is lost |
| CloudWatchLoss.NoEventIsLost | services/static-log-analysis/internal/cloudwatch/adapter.go:396-591 | in such a run every answered poll reads again every event nobody took as far as its window reaches, loses none, and moves no checkpoint past one |
| CloudWatchLoss.LatePollCanLose | services/static-log-analysis/internal/cloudwatch/adapter.go:565-591 | a poll that comes too late for an event continues such a run honestly and loses the event, unless a first checkpoint would still regain it |
| CloudWatchLoss.AFailedFirstReadIsLost | services/static-log-analysis/internal/cloudwatch/adapter.go:396-591 | a concrete run of two honest polls under the default limits: the first is refused downstream before any checkpoint, the second comes fifteen minutes later, passes its event and loses it |
| CloudWatchLoss.ALateArrivalIsLost | services/static-log-analysis/internal/cloudwatch/adapter.go:557-591 | a concrete run of two honest polls under the default limits: an event half a minute behind its checkpoint is read once and refused, polled for two minutes later and lost, though no checkpoint ever moved past it |
| CloudWatchRuns.FailedPollIsReread | services/static-log-analysis/internal/cloudwatch/adapter.go:565-589 | after an answered poll that moved no checkpoint, one of its events is inside the next window exactly as long as it is no older than the maximum lookback, or than the initial lookback while there is no checkpoint |
| CloudWatchRuns.WindowBounds | services/static-log-analysis/internal/cloudwatch/adapter.go:565-589 | a window is never wider than the maximum, never starts before the lookback floor and never ends after now unless it is empty |
| CloudWatchRuns.WindowsMeet | services/static-log-analysis/internal/cloudwatch/adapter.go:565-589 | two successive successful polls no further apart than the least of the three limits leave no gap |
| CloudWatchRuns.NoHole | services/static-log-analysis/internal/cloudwatch/adapter.go:565-589 | over a run of such polls every instant between the first and the last window was inside some successful poll's window |
| CloudWatchAdapter.Read | services/static-log-analysis/internal/cloudwatch/adapter.go:602-633 | an answer is returned exactly when the pages end within the budget, and then it is all of them in order |
| CloudWatchAdapter.GroupState.LoadCheckpoints | services/static-log-analysis/internal/cloudwatch/adapter.go:538-555 | checkpoints are loaded once; a failed load changes nothing |
| CloudWatchAdapter.GroupState.ReadWindow | services/static-log-analysis/internal/cloudwatch/adapter.go:565-589 | the loop over positions finds the window the rules define |
| CloudWatchAdapter.GroupState.Forget | services/static-log-analysis/internal/cloudwatch/adapter.go:593-599 | exactly the deliveries older than the window are forgotten |
| CloudWatchAdapter.GroupState.MapEvents | services/static-log-analysis/internal/cloudwatch/adapter.go:425-461 | the mapping loop collects the furthest readings and the new deliverable records, and reports a crossed boundary exactly when an event crosses it |
| CloudWatchAdapter.GroupState.CommitPositions | services/static-log-analysis/internal/cloudwatch/adapter.go:508-533 | only positions that move are committed, and memory follows the store |
| CloudWatchAdapter.GroupState.PollGroup | services/static-log-analysis/internal/cloudwatch/adapter.go:396-487 | one poll leaves memory, store and verdict exactly as the protocol step the run theorems are about |
| OutboxModel.PublishedWasAccepted | services/static-log-analysis/internal/outbox/publisher.go:192-235 | over any interleaving of publishers, lost acknowledgements and crashes, a published row's message was taken by the agent queue or the dead-letter queue |
| OutboxModel.PublishedIsFinal | services/static-log-analysis/internal/persistence/orchestration.go:328-345 | once published, a row never changes again |
| OutboxModel.RowsAreFenced | services/static-log-analysis/internal/persistence/orchestration.go:213-302 | a row carries the token and lease of the claim last issued for it, or none |
| OutboxModel.OnlyTheLastClaimChangesARow | services/static-log-analysis/internal/persistence/orchestration.go:328-365 | a mark or a retry changes a row only for the holder of the claim last issued for it and before its lease ends |
| OutboxModel.SupersededNeverWrites | services/static-log-analysis/internal/persistence/orchestration.go:328-365 | a holder whose token was superseded can never change the row again |
| OutboxModel.NothingIsLost | services/static-log-analysis/internal/persistence/orchestration.go:213-365 | every message stays in the table and, unless published, can be claimed from some time on; whether a claim then takes it is decided by ClaimOutbox |
| OutboxModel.MarkFollowsAcceptance | services/static-log-analysis/internal/outbox/publisher.go:275-327 | every mark that reaches the store was preceded by an acceptance of the same message |
| OutboxModel.HeldWhileLeased | services/static-log-analysis/internal/persistence/orchestration.go:328-346 | the mark of the last holder of a claimed row is accepted exactly while its lease lasts |
| OutboxPublisher.CycleIsDisciplined | services/static-log-analysis/internal/outbox/publisher.go:143-352 | whatever answers it gets, a cycle marks only what a queue has just taken and touches only what it claimed |
| OutboxPublisher.EveryCutIsDisciplined | services/static-log-analysis/internal/outbox/publisher.go:143-190 | a cycle cut off anywhere has made only such calls |
| OutboxPublisher.CoveredAttemptMarks | services/static-log-analysis/internal/outbox/publisher.go:192-359 | the mark that ends a delivery is certain to be recorded, whatever its sends take within their timeouts, exactly when the lease outlasts all of them from the moment it was checked; there are two sends exactly when a message that passed the boundary check has to be dead-lettered |
| OutboxPublisher.ADeadLetterOutlastsItsLease | services/static-log-analysis/internal/outbox/publisher.go:192-359 | a concrete history under the default limits: a delivery its lease covers publishes, fails, dead-letters, and ends eight seconds past the lease, so that its mark is refused and the accepted dead letter can be claimed and sent again |
| OutboxPublisher.DeliverySettlesOnce | services/static-log-analysis/internal/outbox/publisher.go:192-327 | a delivery ends in its one call that settles the row, a mark exactly when a queue took the message: what was taken is never retried and never offered to the dead-letter queue, and what was not taken is never marked |
| OutboxPublisher.CycleSettlesEachOnce | services/static-log-analysis/internal/outbox/publisher.go:143-190 | a cycle settles the claims it took in their order and each once, up to where it is cut short, whether they were delivered, dead-lettered or released; uncut, it settles them all |
| OutboxPublisher.Publisher.Deliver | services/static-log-analysis/internal/outbox/publisher.go:192-235 | one delivery makes exactly the calls of its case and lands the claim in exactly one count |
| OutboxPublisher.Publisher.ReleaseNow | services/static-log-analysis/internal/outbox/publisher.go:344-352 | the claims not attempted are released, each once |
| OutboxPublisher.Publisher.PublishCycle | services/static-log-analysis/internal/outbox/publisher.go:143-188 | unless it is cut short every claim lands in exactly one count, and the calls are those of the specification |
| OutboxPublisher.OutboxStore.Candidates | services/static-log-analysis/internal/persistence/orchestration.go:240-276 | the oldest claimable unlocked rows, at most one per token |
| OutboxPublisher.PicksAreChosen | services/static-log-analysis/internal/persistence/orchestration.go:240-276 | a claim picks exactly the eligible rows with fewer older eligible rows than it has tokens |
| OutboxPublisher.CorruptHeadBlocks | services/static-log-analysis/internal/persistence/orchestration.go:252-285 | a row that does not validate and has fewer older rows than a claim has tokens blocks every claim from the time it can be claimed on |
| OutboxPublisher.ABrokenMessageStarvesItsSibling | services/static-log-analysis/internal/outbox/publisher.go:139-152 | two concrete rows: the older does not validate, and the younger, which does, is eligible from its time on and claimable at none |
| OutboxPublisher.OutboxStore.ClaimOutbox | services/static-log-analysis/internal/persistence/orchestration.go:213-302 | all the chosen rows are claimed in one transaction with one attempt more, their own token and one lease, or nothing changes; a valid call fails exactly when a chosen row does not validate |
| OutboxPublisher.OutboxStore.MarkOutboxPublished | services/static-log-analysis/internal/persistence/orchestration.go:328-345 | the row is marked exactly for its current holder, and every other caller is told its claim is stale |
| OutboxPublisher.OutboxStore.RetryOutbox | services/static-log-analysis/internal/persistence/orchestration.go:347-365 | the row is released exactly for its current holder and never to a time before now |
| Identity.EncodingSplits | services/static-log-analysis/internal/identity/derived.go:133-161 | no value's encoding, at any nesting depth, can be mistaken for another's whatever follows either |
| Identity.CanonicalIsEvidence | services/static-log-analysis/internal/identity/derived.go:31-71 | two records hash the same bytes exactly when their selected fields agree, allowed lists as sets, maps independent of order, times modulo the 64-bit nanoseconds their encoding carries |
| Identity.RepresentableTimesAreExact | services/static-log-analysis/internal/identity/derived.go:97-103 | two times a 64-bit nanosecond count can hold are hashed alike exactly when they are equal |
| Identity.WrappedIsTheOnlyMatch | services/static-log-analysis/internal/identity/derived.go:97-103 | every time is hashed like exactly one representable time, and like itself only if it is representable |
| Identity.EventTimeIsExact | services/static-log-analysis/internal/identity/derived.go:97-103 | an event time is told apart from every other representable time exactly when it is representable itself |
| Identity.MissingTimeCollides | services/static-log-analysis/internal/identity/derived.go:97-103 | outside that range it is not: a missing event time and one of 30 August 1754 hash the same bytes |
| IdentityEncoder.SortedCopy | services/static-log-analysis/internal/identity/derived.go:105-131 | the sort returns the same strings in byte order |
| IdentityEncoder.Deduplicate | services/static-log-analysis/internal/identity/derived.go:105-118 | dropping equal neighbours leaves each string once, in strictly ascending order |
| IdentityEncoder.CanonicalEncoder.StringsAsSet | services/static-log-analysis/internal/identity/derived.go:105-118 | the list is written as the set of its members: order and repetition do not matter |
| IdentityEncoder.CanonicalEncoder.SafeMap | services/static-log-analysis/internal/identity/derived.go:120-131 | a map is written independently of its iteration order |
| IdentityEncoder.CanonicalEncoder.WriteValue | services/static-log-analysis/internal/identity/derived.go:133-161 | the recursive writer appends exactly the value's encoding |
| IdentityEncoder.Derive | services/static-log-analysis/internal/identity/derived.go:31-71 | the sequence of writes is the canonical byte string |
| Encoding.UvarintReadsBack | services/static-log-analysis/internal/journal/keys.go:75-86 | a length prefix is read back exactly, whatever follows it |
| Encoding.UvarintIsShortest | services/static-log-analysis/internal/admission/wire.go:152-182 | no accepted length prefix is shorter than the one the program writes |
| Encoding.BigEndianOrder | services/static-log-analysis/internal/journal/keys.go:53-73 | fixed-width big-endian numbers are ordered as bytes like the numbers, ties decided by what follows |
| WireRequest.SanitizeNesting | services/static-log-analysis/internal/admission/wire.go:9-23 | the rewritten request reads back, holds exactly the good records in order and unchanged and everything else byte for byte, and is no longer than the original; rejected and accepted are the original positions of the bad and the good records; a readable request never fails |
| WireRequest.RewriteResourceLogs | services/static-log-analysis/internal/admission/wire.go:25-44 | the same for one resource, its attributes emptied exactly when they nest too deep |
| WireRequest.RewriteScopeLogs | services/static-log-analysis/internal/admission/wire.go:46-70 | the same for one scope: each record filtered by its own verdict, its scope's and its resource's |
| WireRequest.BadIsTooDeep | services/static-log-analysis/internal/admission/wire.go:72-113 | in a readable request a record is rejected exactly when its own body or attributes, its resource's or its scope's attributes nest beyond the limit |
| WireRequest.ViewsAreReadable | services/static-log-analysis/internal/admission/wire.go:9-70 | every record of a readable request has such an exact verdict |
| WireRequest.MessagesExceedExact | services/static-log-analysis/internal/admission/wire.go:115-122 | the streaming check over several messages answers whether any of them exceeds |
| WireSanitizer.IndexesPartition | services/static-log-analysis/internal/admission/wire.go:9-23 | the two position lists are increasing and between them hold every original position exactly once |
| WireSanitizer.GoodIsIndexed | services/static-log-analysis/internal/admission/wire.go:46-70 | the surviving records are the originals at the accepted positions, in order |
| WireSanitizer.RewriteKeeping | services/static-log-analysis/internal/admission/wire.go:152-182 | rewriting one field number copies every other field byte for byte, in order, and either keeps or empties the messages of that number |
| WireSanitizer.EmittedFits | services/static-log-analysis/internal/admission/wire.go:152-220 | re-encoding a field with a payload no longer than before never lengthens it |
| WireValues.ValueDepthExact | services/static-log-analysis/internal/admission/wire.go:90-113 | the streaming depth check, which never builds the value, says exactly whether the value nests beyond the limit |
| WireValues.EntriesDepthExact | services/static-log-analysis/internal/admission/wire.go:82-88 | so does the check over attribute lists |
| WireValues.RecordDepthExact | services/static-log-analysis/internal/admission/wire.go:72-80 | so does the check over a record's body and attributes |
| Wire.FieldStable | services/static-log-analysis/internal/admission/wire.go:124-150 | a field reads the same whatever bytes follow it |
| Wire.FieldsAreProper | services/static-log-analysis/internal/admission/wire.go:124-150 | the fields read from a message put together again are the message |
| Wire.FlatReadsBack | services/static-log-analysis/internal/admission/wire.go:152-182 | fields written one after another are read back as the same fields |
| Wire.EmittedIsProper | services/static-log-analysis/internal/admission/wire.go:164-177 | a re-encoded field reads back as the number and payload that built it |
| Materialization.ProjectMaterialization | services/static-log-analysis/internal/admission/materialization.go:12-62 | on a request that can be read within the node limits: the per-record sum of record, scope and resource weights when it and every shared weight fit the maximum, the size error otherwise; any other request is an error |
| Materialization.ResourceSumsAreTrue | services/static-log-analysis/internal/admission/materialization.go:12-62 | adding shared weights once per record, level by level, is the sum of what each record carries |
| Materialization.AddProjected | services/static-log-analysis/internal/admission/materialization.go:92-98 | the addition succeeds exactly when the sum fits, without overflow |
| Materialization.AddProjectedProduct | services/static-log-analysis/internal/admission/materialization.go:100-105 | the product is added exactly when the result fits, and formed only then |
| Materialization.WeightsFitInt64 | services/static-log-analysis/internal/admission/materialization.go:88-90 | within the largest configurable request no weight comes near the 64-bit range |
| Materialization.WeightOf | services/static-log-analysis/internal/admission/materialization.go:64-90 | a weight is returned exactly for a message that can be read and counted |
| Materialization.ProjectScopeLogs | services/static-log-analysis/internal/admission/materialization.go:26-50 | the scope level: its records and its share once per record, or an error that is justified |
| Materialization.ProjectResourceLogs | services/static-log-analysis/internal/admission/materialization.go:14-54 | the resource level, likewise |
| WireCounts.ValueCountExact | services/static-log-analysis/internal/admission/limits.go:218-248 | the two passes over one value together count each of its parts once |
| WireCounts.EntriesCountExact | services/static-log-analysis/internal/admission/limits.go:207-216 | counting attributes counts each entry and all it nests, down to the limit |
| WireCounts.RecordCountExact | services/static-log-analysis/internal/admission/limits.go:198-205 | a readable record is counted exactly |
| WireCounts.NodeBudget.CountAnyValue | services/static-log-analysis/internal/admission/limits.go:218-248 | the budget spent is the exact node count, cut off exactly where the limit is crossed |
| WireCounts.NodeBudget.CountLogRecord | services/static-log-analysis/internal/admission/limits.go:198-205 | the same for a whole record |
| Shell.QuoteReadsBack | agent_space/remediation/script.go:207-211 | under section 2.2.2 of the POSIX shell language the quoted text is read back as the one word it came from, for every string |
| Shell.HereDocumentReadsBack | agent_space/remediation/patch.go:697-704 | under section 2.7.4 a here-document whose lines never equal its delimiter carries its contents unchanged, one final newline added when missing |
| Remediation.RepoPathIsOrdinary | agent_space/remediation/patch.go:657-677 | an accepted path is a list of ordinary names, with no empty, current or parent step, and splitting it gives them back |
| Remediation.ValidateEdits | agent_space/remediation/patch.go:525-550 | the loop accepts exactly the edit lists with distinct acceptable paths and no line that could end the document, and then rewrites every path in place |
| Remediation.LinesAreSafe | agent_space/remediation/patch.go:539-545 | the line check accepts exactly contents without a delimiter line |
| Remediation.ApplyCommand | agent_space/remediation/patch.go:681-716 | a text is returned exactly for a non-empty acceptable list, built from the cleaned paths |
| Remediation.BlockRuns | agent_space/remediation/patch.go:692-705 | running one block makes the directories and writes exactly the contents at its target |
| RemediationEffect.ClosingRuns | agent_space/remediation/patch.go:707-713 | the closing loop exits with zero exactly when every target exists, and changes nothing |
| RemediationEffect.ScriptWritesExactlyTheEdits | agent_space/remediation/patch.go:681-716 | running the text leaves every target with its contents and every other file as it was, when no target is above another and nothing stands in the way |
| RemediationPaths.ExecutesUnlessNull | agent_space/remediation/patch.go:525-550 | the text can be run at all, and then writes exactly the edits, if and only if no contents hold a null byte |
| RemediationPaths.RepoPathShortens | agent_space/remediation/patch.go:657-677 | cleaning never lengthens a path |
| RemediationPaths.CleaningTwiceIsExact | agent_space/remediation/patch.go:657-677 | cleaning a cleaned path again changes nothing exactly when no blank edge is left |
| RemediationPaths.CleaningTwiceCanDiffer | agent_space/remediation/patch.go:657-677 | a concrete path for which the second cleaning gives another file |

## Left out

- IncidentTheorems.DecisionIsFinal: speaks of the deployment and the episode start, which the generation key is a hash of, and not of the hash.
- IncidentCompaction.CompactionKeepsIdentity: one compaction of a well-formed family, nothing pinned and observed time never behind event time; without these a refold after pruning may merge or split episodes, which the program accepts.
- JournalEngine.Journal.ClaimRecords: the claim is whole or not made, but its expiry sweep commits on its own and may raise the account, as in the program.
- CloudWatchRuns.NoHole: supposes, as the program does, that the source honours the bounds of a query.
- Materialization.ProjectMaterialization: of a request that cannot be read or counted it states that an error is returned and not which; when such a request is too large as well, the program answers with the fault it meets first.
- WireRequest.SanitizeNesting: of a request that is not well formed it states only that a result, when there is one, is right.
- IncidentEngine.EngineObject.Observe: the generation a duplicate is reported with is the one that holds it, which the program looks up by a stored ordinal.
- IncidentFinality.DecisionsOutliveCompaction: nothing is claimed of runs in which a record begins an episode in front of one that has lost its beginning, or is pinned, or is observed before its event time.
- Incident engine: the hash of a generation key, record validation and time zones in `ValidatePersistenceDecision`; shrinking of Go maps.
- Incident engine: Go's zero time as an observed event time, which the program cannot tell from an unset one.
- Journal: `Close`, `Stats`, `Capacity`, `RecoverRetained`, directory locking, fsync and detection of corrupted files; the manifest values are fields of the class.
- Journal: the contents of an envelope, its protobuf conversion and the record validators; an envelope is an opaque value with a size, a semantic digest and the validators' verdict.
- Journal: corruption branches that cannot be reached from a valid state; clock, attempt and time overflow branches are kept.
- CloudWatch: page retries and their backoff, counters, observations, and the mapping of an event to a record, which is a parameter.
- Outbox: SQL text, isolation levels, the backoff formula, and the decoding of a stored message; whether a row's content validates is a parameter.
- Canonical identity: the source rules and value limits checked before encoding; the theorem is for every value the encoding's 64-bit lengths can carry.
- Admission: gzip, the generated protobuf decoder, configured limits, `preflightStructure` and mapping back of record rejections; these do not change what is rewritten or counted.
- Remediation: reading a model's answer, comparing a proposal with the checkout, parsing stage output and the container runner; only the part of the shell language the text uses.
- Services not modelled: the dashboard, HTTP and gRPC receivers, redaction, ingestion, enrichment, migrations, triage and GitHub publishing.
