# netbadb change stream: a verified model

This project models the storage-local change stream of netbadb
(`crates/netbadb-change-stream/src/lib.rs`) and proves what it is for: a write-ahead
log of committed row changes with a two-step Prepare/Finalize protocol that survives
crashes, never loses or reorders a committed batch, and can be read, pinned and
reclaimed while it grows. Two smaller parts are modelled beside it: the maintenance
planner and tick scheduler (`crates/netbadb-advisor/src/lib.rs`) and the conversion of
byte offsets to editor positions (`cmd/netbadb-lsp/src/lib.rs`).

`dafny verify dfyconfig.toml` checks everything.

## How the model is put together

- **Coalescing.** `Pending` holds the naive list a transaction's changes coalesce into and
  its meaning as an effect on the visible row versions; `PendingSet` is the class with the
  vector of holes, the index and lazy compaction, proved against that list.
- **Bytes.** `Bytes`, `Codec`, `LogFile`, `Loading`, `LoadingInverse` are the NBCL format: keys,
  mutations, records, markers, headers, frames, whole files and torn tails. `Format` and
  `Layout` spell the bytes out, `Refusals` says what is refused and as what, `Damage` what becomes of
  files that are not whole. The checksum is an arbitrary
  function of the bytes; a row is its encoded byte string. `CodecLoops` has the loops.
- **The stream as a value.** `StreamSpec` says what every operation does to an enabled stream.
  `LogViews`, `DiskInvariant` and `StreamInvariant` relate the stream, the records in the file,
  the synced part of them, the engine's ledger of outcomes and the history of commits.
- **Recovery.** `Recovery` rebuilds a stream from loaded records, `Rebuilding` says what it makes of
  any records at all, `Rebuildable` of which it makes one; `RecoveryProof`, `CrashSafety`
  and `Reopening` prove what it gives back after a crash of the machine, `Restarts` what it makes of
  a file after a restart of the process, `CommitIdentity` what becomes of commits no engine should
  report, `Validation` what the strict check of a file does. `Opening` is the whole open: the log, the
  guard file that remembers which generation is active, and the state a manager starts in.
- **Steps.** `ProtocolSteps`, `ProtocolFinalize`, `ProtocolGc`, `Replay`, `GroupCommit` and
  `GroupRecovery` prove what each operation keeps and what readers and recovery can see of it.
- **Runs.** `World` is a state machine over everything that can happen: enabling and disabling,
  staging, durability barriers, engine commits and aborts, finalizing with and without a barrier,
  checkpoints, GC, pins, failing I/O anywhere, crashes of the machine that cut the file at any byte
  behind what is on the medium, and restarts of the process that keep every byte. `Runs` proves that
  every step keeps one invariant, `Progress` and `Draining` that commits and any backlog get through,
  and `RunTheorems` draws the consequences for every run. `Durability` says which runs keep their
  promises on the medium, and `RestartRuns` has the runs that do not.
- **The manager.** `Manager` is the class that updates its state, file and pins in place, with the
  loops of the source, proved against `ManagerSpec`; `ManagerLoops` has its loops that change
  nothing; `Meaning` says what its calls come to for a caller, `Acceptance` which of them succeed,
  `Answers` how the others are answered and what a failing file leaves;
  `ManagerRuns` proves that each of its calls that changes something is a step of `World` (two for a
  prepare), so what holds of runs holds of the class.
- **Maintenance and positions.** `Planner`, `PlannerFairness`, `Scheduler`, `Position`.

A crash of the machine keeps every record on the medium and any further bytes; what the next open reads
back is on the medium. A restart of the process keeps every byte, with at most one record torn, and puts
nothing on the medium by itself. The outcome callback of an open must tell the truth about every
transaction whose marker is not sure to be read back, and may say anything about the others. The engine
never prepares a transaction id twice, commits only transactions the stream reports as durably prepared,
in reservation order, aborts only the newest reservation, and gives every LSM commit a nonzero sequence;
the ids and row versions it hands over are ones the decoder takes; a new row version is not a version of
the base snapshot and not already live. A file never reaches 2^64 bytes.

## What the code does not do

Five properties one might expect are false of the code. Each has a counterexample and the condition
under which it holds:

- A batch that staging accepts need not load again: the encoder does not look at zero ids, at the kind
  of the keys or at placeholders among the old versions (`Codec.PendingDeleteIsRefused`). Which accepted
  batches do load is `Codec.LoadableExactly`.
- A batch that finalize accepts need not survive a reopen: a zero commit sequence reads back as none,
  and an LSM batch of deletes can be finalized without one, after which the log does not open
  (`CommitIdentity.LsmDeleteWithoutCommit`). When it does survive is `CommitIdentity.FinalizedReopensIff`.
- An open takes every record it reads for durable, and every marker for checkpointed, but syncs the file
  only when it cut a torn tail or appended a marker. After a restart of the process a marker that was only
  written is reported as checkpointed (`RestartRuns.PipelinedFinalizeIsForgotten`), and a reservation that
  was only written can be committed and then lost with the machine (`RestartRuns.StagedCommitIsLost`); both
  happen from a fresh stream (`RestartRuns.FreshRunForgets`, `RestartRuns.FreshRunLoses`). The reopened
  stream keeps its invariant on the medium exactly when the open syncs or nothing live and no marker lies
  behind the medium (`Restarts.RestartKeepsIff`); committed batches survive every machine crash exactly
  when all of them are prepared on the medium (`Restarts.MachineCrashExactIff`).
- An incarnation whose header reached the disk need not open: enabling writes the log before the guard, and
  an open refuses a log beside a guard of another generation. A guard is left over whenever the stream was
  unavailable, or its removal failed on disabling (`Opening.StaleGuardRun`). An enable that stops between
  the two opens exactly when there was no guard before (`Opening.InterruptedEnableOpensIff`); nothing is
  lost by it, because nothing was written under that generation yet (`Opening.CrashReopensIff`).
- The planner is fair only to targets whose actions succeed: among unchanged candidates a target is chosen
  again exactly when its action failed (`PlannerFairness.RetriedIffFailed`), and a run of failures starves
  every other target (`PlannerFairness.FailuresStarve`). Counting successes alone, waiting is bounded
  (`PlannerFairness.BoundedWaiting`).

That a new row version must not be a version of the base snapshot is a real condition too: without it a
published list can lose a row (`Pending.ReusedBaseVersionIsLost`).

## Model

| member | source | states |
|---|---|---|
| `Pending.CoalescingPreservesMeaning` | crates/netbadb-change-stream/src/lib.rs:501-606 | for every valid trace of inserts, updates and deletes, replaying the published list over the base snapshot shows exactly what the raw trace shows; old versions are base versions retired once, new versions are live and made live once |
| `Pending.CoalesceStep` | crates/netbadb-change-stream/src/lib.rs:501-573 | one recorded operation keeps the list in that shape and tracks the visible versions |
| `Pending.PublishedListPassesDecoder` | crates/netbadb-change-stream/src/lib.rs:3093-3123 | every change of a published list passes the decoder's mutation check |
| `Pending.ValidTraceIsRecordable` | crates/netbadb-change-stream/src/lib.rs:501-573 | every operation of a valid trace meets what the accumulator needs of it |
| `Pending.ReusedBaseVersionIsLost` | crates/netbadb-change-stream/src/lib.rs:508-573 | reusing a base version as a new version makes replay lose the row |
| `PendingSet.PendingChangeSet.constructor` | crates/netbadb-change-stream/src/lib.rs:487-495 | a fresh set stands for the empty list |
| `PendingSet.PendingChangeSet.RecordInsert` | crates/netbadb-change-stream/src/lib.rs:501-506 | acts on the surviving changes as the naive list does and keeps the index exact |
| `PendingSet.PendingChangeSet.RecordUpdate` | crates/netbadb-change-stream/src/lib.rs:508-544 | same for updates, in place where the version is live |
| `PendingSet.PendingChangeSet.RecordDelete` | crates/netbadb-change-stream/src/lib.rs:546-573 | same for deletes; a cancelled insert disappears from the list at once, whenever its slot is reclaimed |
| `PendingSet.PendingChangeSet.CancelInsert` | crates/netbadb-change-stream/src/lib.rs:546-573 | leaving a hole removes exactly the cancelled insert, and compaction runs once holes are more than half |
| `PendingSet.PendingChangeSet.Compact` | crates/netbadb-change-stream/src/lib.rs:575-601 | dropping the holes keeps the changes and their order and rebuilds an exact index |
| `PendingSet.PendingChangeSet.AsSlice` | crates/netbadb-change-stream/src/lib.rs:603-606 | the slice is the naive list; for every base it is valid for, replaying it has the effect of the recorded trace |
| `PendingSet.PendingChangeSet.Bounds` | crates/netbadb-change-stream/src/lib.rs:546-601 | the vector is at most twice as long as the live changes, and automatic compactions copy at most two slots per cancelled insert |
| `PendingSet.PendingChangeSet.Clear` | crates/netbadb-change-stream/src/lib.rs:608-612 | empties the set |
| `Codec.KeyRoundTrip` | crates/netbadb-change-stream/src/lib.rs:2746-2776 | decoding an encoded version key returns it and ends right behind it |
| `Codec.MutationRoundTrip` | crates/netbadb-change-stream/src/lib.rs:2717-2744 | the same for a mutation |
| `Codec.MutationInverse` | crates/netbadb-change-stream/src/lib.rs:3005-3026 | any accepted mutation re-encodes to the bytes it was read from |
| `Codec.RecordRoundTrip` | crates/netbadb-change-stream/src/lib.rs:2664-2694 | decoding an encoded batch returns it; in particular the early count check never refuses one |
| `Codec.RecordInverse` | crates/netbadb-change-stream/src/lib.rs:2925-3003 | any accepted record payload re-encodes to the same bytes |
| `Codec.EncoderAcceptsIff` | crates/netbadb-change-stream/src/lib.rs:2664-2694 | exactly which batches the encoder takes |
| `Codec.LoadableExactly` | crates/netbadb-change-stream/src/lib.rs:2925-3003 | an encoded batch decodes to itself if and only if its ids, keys and old versions pass checks the encoder does not make |
| `Codec.PendingDeleteIsRefused` | crates/netbadb-change-stream/src/lib.rs:3093-3123 | a delete of a pending LSM version is encoded and then refused by the decoder |
| `Format.LittleEndian` | crates/netbadb-change-stream/src/lib.rs:2664-2694 | every integer is written lowest digit first: byte i of an encoding is digit i to the base 256 |
| `Format.RecordIsLaidOut` | crates/netbadb-change-stream/src/lib.rs:2664-2694 | at which byte each part of any framed record stands, from the length to the checksum |
| `Format.RecordBytesAre` | crates/netbadb-change-stream/src/lib.rs:2664-2787 | the literal bytes of a framed record with an insert, an update and a delete over keys of both engines |
| `Format.MarkerBytesAre` | crates/netbadb-change-stream/src/lib.rs:2696-2715 | the literal bytes of a finalize marker |
| `Format.HeaderBytesAre` | crates/netbadb-change-stream/src/lib.rs:2541-2578 | the literal bytes of a header of each version |
| `Layout.HeaderIsLaidOut` | crates/netbadb-change-stream/src/lib.rs:2541-2578 | at which byte each part of any header stands: the magic, the version, byte 6 for active, byte 7 which is 1 for a heap and 2 for an LSM, the identities and frontiers, four zeros and the checksum |
| `Layout.MarkerIsLaidOut` | crates/netbadb-change-stream/src/lib.rs:2696-2715 | the same of any framed finalize marker |
| `Layout.ChangesAreLaidOut` | crates/netbadb-change-stream/src/lib.rs:2717-2787 | the same of every mutation of any framed record: its tag, its versions with the old one first, and its row behind its length |
| `Format.EncoderTakesExactly` | crates/netbadb-change-stream/src/lib.rs:2664-2787 | the encoder takes a batch if and only if it has one to a million mutations, keys of its storage with nonzero generations or rows, rows of at most 16 MiB and a payload of at most 64 MiB |
| `Format.PendingCheckIff` | crates/netbadb-change-stream/src/lib.rs:3093-3123 | the check on a loaded mutation passes if and only if its keys are of the engine and no old version is a placeholder |
| `Format.HeaderReadBackIff` | crates/netbadb-change-stream/src/lib.rs:2580-2662 | an encoded header is read back if and only if its ids, generation, sequence and frontiers are as required |
| `Refusals.EncoderRefusesAs` | crates/netbadb-change-stream/src/lib.rs:2664-2787 | the first change that cannot be written is the one reported, and what the error says of it is so |
| `Refusals.EncoderRefusesSizes` | crates/netbadb-change-stream/src/lib.rs:2664-2694 | no changes, too many, or a payload over 64 MiB are refused by their number or size |
| `Refusals.DecoderTakesExactly` | crates/netbadb-change-stream/src/lib.rs:2925-3123 | exactly which payloads are read, and as what: those of batches that can be written, with nonzero ids, of this table, storage and engine |
| `Refusals.DecoderRefusesAs` | crates/netbadb-change-stream/src/lib.rs:2925-3123 | a written record is refused on reading for a zero id, then for its context, then for its first change that does not fit the engine, and is otherwise read as it was |
| `Refusals.TrailingBytesAreRefused` | crates/netbadb-change-stream/src/lib.rs:2985-3003 | bytes behind a record are not part of it |
| `Refusals.CutRecordIsRefused` | crates/netbadb-change-stream/src/lib.rs:2925-2984 | a record too short for its mutations is refused before they are read |
| `Refusals.MarkerBytesRefusedAs` | crates/netbadb-change-stream/src/lib.rs:2903-2915 | exactly which bytes are no marker, and which have no transaction |
| `Refusals.HeaderRefusedAs` | crates/netbadb-change-stream/src/lib.rs:2580-2662 | a written header is refused for a zero identity, then its frontiers, then a zero next sequence, and is otherwise read as it was; the older version counts from one |
| `Refusals.HeaderDamageIsReported` | crates/netbadb-change-stream/src/lib.rs:2580-2662 | what other bytes are refused for: too few, no magic, an unknown version or flag, another checksum |
| `Refusals.EngineByteIsRead` | crates/netbadb-change-stream/src/lib.rs:2580-2662 | a header is read as a heap's if and only if its engine byte is 1, as an LSM's if and only if it is 2 |
| `CodecLoops.EncodeRecordBytes` | crates/netbadb-change-stream/src/lib.rs:2664-2694 | the appending loop writes exactly the record's encoding, laid out byte by byte as specified, or reports its first error |
| `CodecLoops.DecodeListBytes` | crates/netbadb-change-stream/src/lib.rs:2981-2990 | the loop that advances an offset decodes the same mutations, or the same error |
| `CodecLoops.LoadFileBytes` | crates/netbadb-change-stream/src/lib.rs:2789-2901 | the frame loop loads what the file specification says; it accepts an active log if and only if the bytes are the encoding of records that load, with at most a partial frame behind them, and none on a strict load |
| `LogFile.FinalizeRoundTrip` | crates/netbadb-change-stream/src/lib.rs:2696-2715 | a marker decodes to itself if and only if its commit is not a zero sequence |
| `LogFile.FinalizeReadsBack` | crates/netbadb-change-stream/src/lib.rs:2696-2715 | every marker decodes to its transaction and commit, a zero commit to none; the two have the same bytes |
| `LogFile.FinalizeInverse` | crates/netbadb-change-stream/src/lib.rs:2903-2915 | any accepted marker re-encodes to the same bytes |
| `LogFile.HeaderRoundTrip` | crates/netbadb-change-stream/src/lib.rs:2541-2578 | decoding an encoded valid header of either version returns it |
| `LogFile.HeaderInverse` | crates/netbadb-change-stream/src/lib.rs:2580-2662 | any accepted header is valid and re-encodes to the same bytes |
| `Loading.TornTailRecovery` | crates/netbadb-change-stream/src/lib.rs:2789-2901 | for any log and any cut behind the header a lenient load keeps exactly the records wholly inside the cut and ends the file there; a strict load refuses a cut inside a record |
| `LoadingInverse.LoadInverse` | crates/netbadb-change-stream/src/lib.rs:2789-2901 | any file a load accepts is the encoding of its header and of records that load to the same, up to the byte it reports |
| `LoadingInverse.StrictAcceptsExactly` | crates/netbadb-change-stream/src/lib.rs:2789-2901 | a strict load accepts an active log if and only if it is the encoding of a valid header and of records that load |
| `Damage.LenientAcceptsExactly` | crates/netbadb-change-stream/src/lib.rs:2822-2856 | a lenient load accepts an active log if and only if it is the encoding of a valid header and of records that load, followed by fewer than four bytes, or by a possible length and fewer bytes than it announces |
| `Damage.TailLoads` | crates/netbadb-change-stream/src/lib.rs:2822-2856 | and loads exactly those records, ending where they end; a strict load refuses a tail |
| `Damage.ChecksumIsReported` | crates/netbadb-change-stream/src/lib.rs:2857-2859 | a whole frame with a wrong checksum, behind any records and before any bytes, fails every load at its offset |
| `Damage.DamagedRecordIsReported` | crates/netbadb-change-stream/src/lib.rs:2857-2859 | so a log with the payload of one record changed, to one of another checksum, fails to load at that record, lenient or not |
| `Damage.BadLengthIsReported` | crates/netbadb-change-stream/src/lib.rs:2833-2836 | a length no record can have fails every load, too |
| `Damage.DamagedLogDoesNotOpen` | crates/netbadb-change-stream/src/lib.rs:827-885 | and such a log does not open |
| `LogViews.ResolveKeepsSize` | crates/netbadb-change-stream/src/lib.rs:2367-2380 | resolving placeholder versions never changes an encoded length |
| `LogViews.ResolvePublishes` | crates/netbadb-change-stream/src/lib.rs:2367-2380 | a batch is published as its staged self with every LSM placeholder of a new version replaced by the commit sequence and nothing else changed, and in no other way |
| `LogViews.CommitMakesValid` | crates/netbadb-change-stream/src/lib.rs:3125-3143 | an engine-shaped commit leaves no version of zero and none of the other engine in any loadable batch, old or new |
| `LogViews.CommittedIff` | crates/netbadb-change-stream/src/lib.rs:3125-3143 | the check on committed mutations passes if and only if every version is of the engine and no LSM version is zero |
| `Answers.CommittedCheckIff` | crates/netbadb-change-stream/src/lib.rs:3125-3143 | the same of each kind of change and each engine, spelled out; what the check finds in others is so |
| `Recovery.ChainErrorIff` | crates/netbadb-change-stream/src/lib.rs:2382-2408 | the frontier check passes if and only if the batches advance by one from the given frontier |
| `Recovery.ChainErrorIs` | crates/netbadb-change-stream/src/lib.rs:2382-2408 | the first batch that does not continue the chain is reported, as a gap, an exhausted frontier or a frontier that does not advance |
| `Recovery.LoadShape` | crates/netbadb-change-stream/src/lib.rs:2860-2896 | loading a well-formed log gives each prepared batch the outcome of its marker, or else of the engine |
| `Recovery.LoadsIff` | crates/netbadb-change-stream/src/lib.rs:2860-2896 | a log loads if and only if each marker follows a record of its transaction and is the only one |
| `Recovery.MarkerRefusedAs` | crates/netbadb-change-stream/src/lib.rs:2860-2896 | a marker is refused exactly for having no record before it, or for being the second of its transaction |
| `Rebuilding.BuildMeans` | crates/netbadb-change-stream/src/lib.rs:2241-2345 | for any loaded records: a rebuild that succeeds publishes exactly the committed ones, each once and under its published version, in a gap-free chain, and sorts the others by outcome; no transaction comes twice |
| `Rebuildable.SortOrders` | crates/netbadb-change-stream/src/lib.rs:2241-2345 | the rebuild takes the committed records by sequence, and by place in the log where that is equal |
| `Rebuildable.BuildsIff` | crates/netbadb-change-stream/src/lib.rs:2241-2345 | a rebuild succeeds if and only if no transaction comes twice, every committed record can be published and marked, no sequence is the last, and the committed records in order lead from the earliest frontier, without a gap, as far as the header says at least |
| `Rebuildable.BuildRefusedAs` | crates/netbadb-change-stream/src/lib.rs:2241-2408 | and is otherwise refused for what is so of the records, each error said out |
| `RecoveryProof.BuildDisk` | crates/netbadb-change-stream/src/lib.rs:2241-2345 | rebuilding succeeds and yields the whole committed history, the unresolved reservations and exactly the missing markers |
| `CrashSafety.RecoveryIsExact` | crates/netbadb-change-stream/src/lib.rs:2241-2345 | after a machine crash that lost any records behind the synced ones, recovery rebuilds the committed, unreclaimed batches, and the protocol's invariant holds again of the records read back from the medium and the markers it appended and synced |
| `CrashSafety.OpenIsExact` | crates/netbadb-change-stream/src/lib.rs:827-885 | the same for a file a machine crash cut at any byte behind the synced records |
| `CrashSafety.CrashSafetyBytes` | crates/netbadb-change-stream/src/lib.rs:827-885 | opening what a machine crash left succeeds; its batches are exactly what the ledger committed among the prepared records, gap-free from the earliest frontier |
| `ProtocolSteps.StageKeeps` | crates/netbadb-change-stream/src/lib.rs:1730-1813 | staging keeps the invariant: the new reservation continues the chain |
| `ProtocolSteps.ReservedFrontierIs` | crates/netbadb-change-stream/src/lib.rs:1760-1766 | the next reservation starts where the live chain ends |
| `ProtocolSteps.SyncKeeps` | crates/netbadb-change-stream/src/lib.rs:1940-1994 | a sync moves the checkpoint to the committed frontier and clears every pending one |
| `ProtocolSteps.DurabilizeKeeps` | crates/netbadb-change-stream/src/lib.rs:1815-1938 | the durability barrier keeps the invariant |
| `ProtocolSteps.DurabilizeTakesPrefix` | crates/netbadb-change-stream/src/lib.rs:1824-1886 | the group barrier accepts exactly the oldest reservations, in chain order and under their identities |
| `ProtocolSteps.DurabilizeTakesRun` | crates/netbadb-change-stream/src/lib.rs:1850-1886 | a barrier on its own accepts exactly a stretch of consecutive reservations, wherever it starts |
| `ProtocolSteps.DurableAreKnown` | crates/netbadb-change-stream/src/lib.rs:1850-1886 | any accepted barrier names unresolved transactions only |
| `ProtocolSteps.CommitKeeps` | crates/netbadb-change-stream/src/lib.rs:2175-2212 | an engine commit of the oldest durable reservation extends the history and keeps the invariant |
| `ProtocolSteps.AbandonKeeps` | crates/netbadb-change-stream/src/lib.rs:1250-1266 | giving up an aborted tail is accepted and keeps the invariant |
| `ProtocolSteps.AbandonOnlyTail` | crates/netbadb-change-stream/src/lib.rs:1250-1266 | abandon refuses exactly the reservations that have another behind them |
| `ProtocolFinalize.FinalizeTakesPrefix` | crates/netbadb-change-stream/src/lib.rs:2013-2119 | a finalize that publishes is accepted if and only if its candidates are the oldest reservations in chain order, durable, under their identities and without placeholders |
| `ProtocolFinalize.FinalizePartial` | crates/netbadb-change-stream/src/lib.rs:2121-2159 | any prefix of the markers of an accepted finalize leaves a recoverable file |
| `ProtocolFinalize.PipelinedKeeps` | crates/netbadb-change-stream/src/lib.rs:2004-2239 | a pipelined finalize keeps the invariant, so it never leaves a gap |
| `ProtocolFinalize.ImmediateKeeps` | crates/netbadb-change-stream/src/lib.rs:2004-2239 | the same with its own barrier |
| `ProtocolFinalize.ImmediateIsPipelinedThenSync` | crates/netbadb-change-stream/src/lib.rs:2161-2220 | an immediate finalize is a pipelined one followed by a sync |
| `ProtocolGc.GcRangeIff` | crates/netbadb-change-stream/src/lib.rs:1484-1497 | on a gap-free stream GC accepts exactly the frontiers it still holds |
| `ProtocolGc.GcRewrites` | crates/netbadb-change-stream/src/lib.rs:2430-2484 | the rewrite never fails in a reachable state and holds exactly the retained batches, each followed by its marker |
| `ProtocolGc.GcKeeps` | crates/netbadb-change-stream/src/lib.rs:1432-1566 | a successful GC keeps the invariant |
| `Replay.ReadIsLongest` | crates/netbadb-change-stream/src/lib.rs:1281-1350 | a cursor inside the history always reads the longest run of batches from its frontier that both limits allow, with no gap and an exact "more" flag |
| `Replay.LongestIsUnique` | crates/netbadb-change-stream/src/lib.rs:1323-1344 | only one number of batches is the longest two limits allow |
| `Replay.ReadAccepts` | crates/netbadb-change-stream/src/lib.rs:1302-1318 | read succeeds if and only if the cursor is of the live incarnation and inside the history |
| `Replay.ReplayIsComplete` | crates/netbadb-change-stream/src/lib.rs:1281-1350 | repeated bounded reads end and add up to the whole history from the cursor on |
| `Replay.FullReadIsComplete` | crates/netbadb-change-stream/src/lib.rs:1281-1350 | in every reachable state one read with the largest limits returns what bounded replay adds up to |
| `Replay.GcIsTransparent` | crates/netbadb-change-stream/src/lib.rs:1432-1566 | after GC every read from its frontier on returns the identical result; committed frontier and next sequence stay |
| `Replay.GcSizeIsExact` | crates/netbadb-change-stream/src/lib.rs:2449-2467 | the rewritten file is exactly the header plus the retained bytes the metadata gave for the kept batches |
| `Reopening.RecoveryIsFixedPoint` | crates/netbadb-change-stream/src/lib.rs:2253-2343 | after any crash and recovery every committed batch is marked in the file, and a second recovery writes nothing and rebuilds the identical stream |
| `Restarts.RestartOpens` | crates/netbadb-change-stream/src/lib.rs:2825-2896 | opening a file of which every record is read back, behind a torn tail or not, rebuilds the whole stream and appends exactly the missing markers; it syncs exactly when a tail was torn or a marker missing |
| `Restarts.RestartKeepsIff` | crates/netbadb-change-stream/src/lib.rs:2297-2343 | the stream reopened after a restart keeps the protocol's invariant on what is on the medium if and only if the open synced the file, or nothing live and no marker lies behind the medium |
| `Restarts.MachineCrashExactIff` | crates/netbadb-change-stream/src/lib.rs:2825-2896 | every machine crash that keeps the medium is recovered exactly if and only if every committed, unreclaimed batch is prepared on the medium |
| `Restarts.CommitIsLost` | crates/netbadb-change-stream/src/lib.rs:2868-2875 | otherwise the crash right behind the medium reopens, if at all, to the committed batches that are on it and no more |
| `Reopening.RecoveredSizesMatch` | crates/netbadb-change-stream/src/lib.rs:2300-2312 | the sizes recovery rebuilds are the ones the live stream carried |
| `Reopening.GcReopensAsItself` | crates/netbadb-change-stream/src/lib.rs:2313-2343 | opening the file GC wrote gives back exactly the stream GC left in memory |
| `Reopening.GcIsCrashAtomic` | crates/netbadb-change-stream/src/lib.rs:2430-2484 | a crash before or after the rename reopens the complete old or new history; both are accepted, end at the same frontier and read the same from the GC frontier on |
| `Validation.ValidateNeverWrites` | crates/netbadb-change-stream/src/lib.rs:3215-3237 | on any bytes whatsoever validation appends no marker and cuts no tail |
| `Validation.ValidatesIff` | crates/netbadb-change-stream/src/lib.rs:3215-3237 | an active file passes if and only if it is, to the last byte, the encoding for this table of a log whose markers are in place and whose records can be rebuilt, as said for `BuildsIff` |
| `Validation.InactiveValidatesIff` | crates/netbadb-change-stream/src/lib.rs:3215-3237 | an inactive file passes if and only if its header loads and names this table and its schema, and is otherwise refused as its header is or for the schema |
| `Validation.OtherSchemaIsRefused` | crates/netbadb-change-stream/src/lib.rs:3215-3237 | so is an active file that loads, of another table or schema |
| `Validation.ValidateAcceptsLive` | crates/netbadb-change-stream/src/lib.rs:3215-3237 | the file of every reachable enabled stream passes strict validation |
| `Opening.Open` | crates/netbadb-change-stream/src/lib.rs:787-918 | the state a manager opens in, from the bytes of log and guard; it is enabled if and only if the log is the file of records that load and can be rebuilt, for this table, schema, storage and engine, with at most a partial frame behind them, and a guard, if there is one, is a header of the same incarnation; what it is otherwise, for any files: disabled only without log and guard or for an inactive log of this context, else unavailable under the log's generation or, if the log does not load, the guard's |
| `Opening.OpensIff` | crates/netbadb-change-stream/src/lib.rs:796-918 | which files open, as in the contract of `Open` |
| `Opening.OpenAnswers` | crates/netbadb-change-stream/src/lib.rs:796-894 | for any files: the stream is disabled if and only if there is neither log nor guard, or the log loads, is inactive and of this context; every other log that loads and does not open leaves it unavailable under its own generation |
| `Opening.OpenedGenerationIsPast` | crates/netbadb-change-stream/src/lib.rs:796-1004 | so that enabling again never reuses the generation of the log or of the guard |
| `Opening.GuardProtects` | crates/netbadb-change-stream/src/lib.rs:2486-2526 | beside the guard of an incarnation no log whatsoever opens under another one, and a missing or unreadable log leaves the stream unavailable under the guard's generation |
| `Opening.OpensAsCrashed` | crates/netbadb-change-stream/src/lib.rs:796-918 | after any machine crash, opening the files that are left, of an active, a disabled or no log, gives exactly the state the run goes on in; the checks of identity never get in the way |
| `Opening.OpensAsRestarted` | crates/netbadb-change-stream/src/lib.rs:796-918 | the same after any restart of the process |
| `Opening.CrashReopensIff` | crates/netbadb-change-stream/src/lib.rs:844-863 | in every reachable world a machine crash reopens the stream if and only if no guard of an earlier generation stands beside the log, and otherwise nothing was ever written under its generation |
| `Opening.RestartReopensIff` | crates/netbadb-change-stream/src/lib.rs:844-863 | the same for a restart |
| `Opening.InterruptedEnableOpensIff` | crates/netbadb-change-stream/src/lib.rs:974-990 | an enable that stops between header and guard, in any reachable world, opens if and only if there was no guard before; otherwise the stream is unavailable and enabling again takes the next generation |
| `Opening.OpenSettlesGuard` | crates/netbadb-change-stream/src/lib.rs:838-842 | opening a disabled log removes what guard is left, so the next enable opens wherever it is interrupted behind its header |
| `Opening.DisableSettlesGuard` | crates/netbadb-change-stream/src/lib.rs:1006-1031 | and so does a disable that succeeds |
| `Opening.StaleGuardRun` | crates/netbadb-change-stream/src/lib.rs:942-1031 | a run of four events from a stream that was never enabled leads there |
| `CommitIdentity.FinalizedReopensIff` | crates/netbadb-change-stream/src/lib.rs:2048-2119 | for the oldest undecided reservation of every reachable state and every commit it is decided with, a batch that finalize accepts and publishes comes back from opening the file with its marker, batch and commit unchanged, if and only if the commit is nonzero and, for LSM storage, present; an LSM file with any other marker does not open |
| `CommitIdentity.LsmDeleteWithoutCommit` | crates/netbadb-change-stream/src/lib.rs:2261-2271 | finalize accepts an LSM batch of deletes without a commit sequence, and opening the file with its marker fails |
| `GroupCommit.GroupRefinesIndividual` | crates/netbadb-change-stream/src/lib.rs:1036-1173 | staging a group, one barrier and one finalize (or a pipelined one and a checkpoint) end in the identical stream as committing the members one by one, with two syncs instead of two each |
| `GroupCommit.EachCommits` | crates/netbadb-change-stream/src/lib.rs:1036-1130 | committing member by member succeeds throughout and publishes each in turn |
| `GroupCommit.TogetherCommits` | crates/netbadb-change-stream/src/lib.rs:1067-1173 | every call of the group path succeeds |
| `GroupRecovery.GroupRecoversSame` | crates/netbadb-change-stream/src/lib.rs:2241-2345 | the logs of both ways have the same size, load to the same records and rebuild the same stream, whatever the engine reports |
| `Runs.StepKeeps` | crates/netbadb-change-stream/src/lib.rs:942-1566 | every step, failing or not, crashes and restarts included, keeps the invariant of the whole system over the records the stream takes for synced |
| `Runs.StartInv` | crates/netbadb-change-stream/src/lib.rs:758-785 | a stream that was never enabled satisfies the invariant exactly for nonzero storage and table ids |
| `Runs.After` | crates/netbadb-change-stream/src/lib.rs:942-1566 | the invariant holds wherever any run leads |
| `Progress.CommitCycle` | crates/netbadb-change-stream/src/lib.rs:1036-1130 | in every reachable world without reservations a transaction that fits is carried through stage, barrier, engine commit and finalize, each admissible where it is taken, and ends published, marked and checkpointed |
| `Draining.BacklogDrains` | crates/netbadb-change-stream/src/lib.rs:1082-1173 | from every reachable world with a live stream, whatever reservations it holds, a run of barriers, engine commits and finalizes in chain order publishes all of them: the decided ones as decided, the others under any commits an engine may report |
| `Draining.DrainOne` | crates/netbadb-change-stream/src/lib.rs:1082-1130 | the oldest reservation can always be made durable, decided if it is not, and published |
| `RunTheorems.CrashSafetyOfRuns` | crates/netbadb-change-stream/src/lib.rs:1730-2345 | after any run from a fresh stream, restarts and earlier crashes included, and any machine crash in a world whose committed batches are all prepared on the medium, reopening gives exactly the ledger-committed, unreclaimed batches, in order and gap-free, up to the last commit |
| `Durability.DurabilityOfRuns` | crates/netbadb-change-stream/src/lib.rs:1730-2345 | in runs whose every restart finds a torn tail, a missing marker, or nothing live and no marker behind the medium, no machine crash that keeps the medium loses a committed batch, and every marker up to the checkpoint is on the medium |
| `Durability.RestartBackedIff` | crates/netbadb-change-stream/src/lib.rs:2825-2896 | a restart leaves everything the stream takes for synced on the medium, up to aborted reservations, if and only if it is such a restart |
| `Durability.StepBacked` | crates/netbadb-change-stream/src/lib.rs:942-1566 | every other step keeps it so |
| `Durability.BackedInv` | crates/netbadb-change-stream/src/lib.rs:1815-1938 | then the whole invariant of the stream holds over the medium alone, and every committed batch is prepared there |
| `Durability.CheckpointsAreDurable` | crates/netbadb-change-stream/src/lib.rs:1940-1994 | and every marker up to the checkpoint is on the medium |
| `RestartRuns.ReopeningForgets` | crates/netbadb-change-stream/src/lib.rs:2297-2343 | restarting with the marker of the newest batch off the medium reports it as checkpointed; an explicit checkpoint then does nothing |
| `RestartRuns.PipelinedFinalizeIsForgotten` | crates/netbadb-change-stream/src/lib.rs:2297-2343 | from every reachable world with one committed batch to publish, a pipelined finalize and a restart lead there |
| `RestartRuns.StagedCommitIsLost` | crates/netbadb-change-stream/src/lib.rs:2860-2875 | from every reachable world whose oldest reservation is only written, a restart and its commit lead to a world in which a machine crash loses the committed batch |
| `RestartRuns.FreshRunForgets` | crates/netbadb-change-stream/src/lib.rs:942-1218 | the first happens in six events from a stream that was never enabled |
| `RestartRuns.FreshRunLoses` | crates/netbadb-change-stream/src/lib.rs:942-1218 | the second in four events and a crash |
| `RunTheorems.RunFollows` | crates/netbadb-change-stream/src/lib.rs:942-1566 | between any two worlds of a run incarnations only move forward, and within one the history only grows and the frontier only advances |
| `RunTheorems.PublishedIsForever` | crates/netbadb-change-stream/src/lib.rs:1281-1350 | whatever crashes, failures and GCs lie between, every frontier two worlds of one incarnation can both read has the same batch in both |
| `RunTheorems.IncarnationsNeverMix` | crates/netbadb-change-stream/src/lib.rs:1712-1728 | cursors and pins of an earlier generation are refused by read, acquire and advance and never hold GC back |
| `RunTheorems.FreshGeneration` | crates/netbadb-change-stream/src/lib.rs:942-1004 | enabling starts a generation higher than any that readers have seen, with no live pin |
| `RunTheorems.PoisonIsSticky` | crates/netbadb-change-stream/src/lib.rs:1235-1248 | an unavailable stream stays so until it is disabled, enabled afresh or reopened |
| `RunTheorems.PinsStayReadable` | crates/netbadb-change-stream/src/lib.rs:1352-1430 | every pin of the live generation lies inside the history and can be read from, in every reachable world |
| `RunTheorems.ReservationsFormChain` | crates/netbadb-change-stream/src/lib.rs:1760-1812 | the unresolved records by sequence start at the committed frontier and advance by one |
| `RunTheorems.CheckpointsAreConserved` | crates/netbadb-change-stream/src/lib.rs:1940-1994 | checkpoint plus pending checkpoints is the committed frontier, the pending ones are exactly the newest batches, and every marker up to the checkpoint is among the records the stream takes for synced |
| `ManagerLoops.NewestReservation` | crates/netbadb-change-stream/src/lib.rs:1760-1766 | one pass over the map finds the newest reservation |
| `ManagerLoops.SortedReservations` | crates/netbadb-change-stream/src/lib.rs:1834-1843 | the unresolved transactions in reservation order |
| `ManagerLoops.SelectBatches` | crates/netbadb-change-stream/src/lib.rs:1319-1344 | the read loop selects exactly the specified batches, or reports the same gap |
| `ManagerLoops.LowestPinned` | crates/netbadb-change-stream/src/lib.rs:1467-1483 | the lowest live pin, and thereby exactly the frontiers pins forbid |
| `ManagerLoops.RewriteRetained` | crates/netbadb-change-stream/src/lib.rs:2430-2484 | the rewrite loop writes the specified records and counts their bytes |
| `ManagerLoops.ValidateCommittedChain` | crates/netbadb-change-stream/src/lib.rs:2382-2408 | the loop accepts exactly gap-free chains and reports the first fault |
| `ManagerLoops.SortCommitted` | crates/netbadb-change-stream/src/lib.rs:2300-2311 | sorted by sequence, and a permutation |
| `ManagerLoops.BuildEnabledState` | crates/netbadb-change-stream/src/lib.rs:2241-2345 | the recovery loop computes the specified stream and repairs, or the same error; its batches are the committed records under their published versions, its reservations the undecided ones |
| `Manager.ChangeStreamManager.constructor` | crates/netbadb-change-stream/src/lib.rs:758-785 | a manager starts disabled under generation zero, without a file and without pins |
| `Manager.ChangeStreamManager.Enable` | crates/netbadb-change-stream/src/lib.rs:942-1004 | succeeds exactly when the stream is enabled afterwards; a fresh incarnation has the next generation, its cursor reads nothing yet, and every cursor of an earlier generation is refused; a failure uses the generation up; an enabled stream is left alone |
| `Manager.ChangeStreamManager.Disable` | crates/netbadb-change-stream/src/lib.rs:1006-1031 | the generation stays used and every read is refused, even if the guard could not be removed, or nothing changes |
| `Manager.ChangeStreamManager.Poison` | crates/netbadb-change-stream/src/lib.rs:1235-1248 | an I/O error leaves the stream unavailable under its generation |
| `Manager.ChangeStreamManager.StagePrepare` | crates/netbadb-change-stream/src/lib.rs:1730-1813 | reserves as specified, or reports the specified error and changes nothing; a failed append poisons |
| `Manager.ChangeStreamManager.CheckDurable` | crates/netbadb-change-stream/src/lib.rs:1824-1887 | the loop finds the specified first error, or whether some candidate is not durable yet |
| `Manager.ChangeStreamManager.DurabilizePrepared` | crates/netbadb-change-stream/src/lib.rs:1815-1938 | a barrier that succeeds makes every record it names durable and touches no other, with one sync exactly when one was not durable before, after which nothing waits for a checkpoint; otherwise the specified error |
| `Manager.ChangeStreamManager.Prepare` | crates/netbadb-change-stream/src/lib.rs:1036-1063 | staging followed by its own barrier |
| `Manager.ChangeStreamManager.Sync` | crates/netbadb-change-stream/src/lib.rs:1940-1994 | the whole file is on the medium and every pending checkpoint cleared |
| `Manager.ChangeStreamManager.CheckFinalize` | crates/netbadb-change-stream/src/lib.rs:2048-2119 | the validation loop passes if and only if the candidates continue the stream and each names a durable reservation under its whole identity that its commit leaves without a placeholder; what it finds in others is so |
| `Manager.ChangeStreamManager.AppendMarkers` | crates/netbadb-change-stream/src/lib.rs:2121-2159 | the markers appended up to the fault, and the records remembered as staged |
| `Manager.ChangeStreamManager.Promote` | crates/netbadb-change-stream/src/lib.rs:2175-2220 | the promotion loop appends each candidate's reservation, in order, under the version its commit gives it |
| `Manager.ChangeStreamManager.FinalizeBatch` | crates/netbadb-change-stream/src/lib.rs:2004-2239 | the whole new state, for success, every refusal, a failed append at any marker and a failed sync; a success appends each candidate's reservation under the version its commit gives it, unless all are published |
| `Manager.ChangeStreamManager.CheckpointPendingFinalizes` | crates/netbadb-change-stream/src/lib.rs:1179-1218 | one sync if something is pending, otherwise nothing |
| `Manager.ChangeStreamManager.Abandon` | crates/netbadb-change-stream/src/lib.rs:1250-1266 | removes the newest reservation, refuses any other |
| `Manager.ChangeStreamManager.Read` | crates/netbadb-change-stream/src/lib.rs:1281-1350 | the specified result and every refusal, changing nothing |
| `Manager.ChangeStreamManager.AcquirePin` | crates/netbadb-change-stream/src/lib.rs:1352-1391 | registers a pin under a fresh id exactly for readable cursors |
| `Manager.ChangeStreamManager.AdvancePin` | crates/netbadb-change-stream/src/lib.rs:1393-1430 | moves a pin forward only, and only a registered one of the live generation |
| `Manager.ChangeStreamManager.CheckGc` | crates/netbadb-change-stream/src/lib.rs:1432-1497 | GC is refused for what is reserved, then for what waits, then by the lowest live pin below the frontier, then exactly for a frontier at which the history cannot be cut; otherwise how many batches it drops |
| `Manager.ChangeStreamManager.GcThrough` | crates/netbadb-change-stream/src/lib.rs:1432-1566 | the whole new state of a GC; a refused or failed one changes nothing |
| `ManagerSpec.BarrierMeans` | crates/netbadb-change-stream/src/lib.rs:1815-1938 | what a successful barrier has done to every record, to the file, to the checkpoint and to the number of syncs, and that it has done nothing else |
| `ManagerSpec.FinalizeMeans` | crates/netbadb-change-stream/src/lib.rs:2004-2239 | what a successful finalize has appended, or that it left everything alone because all candidates were published |
| `Meaning.StageMeans` | crates/netbadb-change-stream/src/lib.rs:1730-1813 | staging answers nothing for no changes or a disabled stream, and otherwise the reservation the transaction has or now gets, which holds exactly what was given |
| `Meaning.StageContinues` | crates/netbadb-change-stream/src/lib.rs:1760-1812 | in every reachable world the new reservation starts at the committed frontier moved on by the number of reservations |
| `Meaning.BarrierReachesFile` | crates/netbadb-change-stream/src/lib.rs:1880-1938 | in every reachable world each record a successful barrier was called for is durable and among the synced records of the file |
| `Meaning.DurableIsSynced` | crates/netbadb-change-stream/src/lib.rs:1880-1938 | whatever counts as durable is among the records that count as synced |
| `Meaning.NothingWrittenIff` | crates/netbadb-change-stream/src/lib.rs:2018-2047 | in every reachable world finalize answers that it wrote nothing if and only if every candidate is among the published batches, and otherwise writes one marker for each |
| `Meaning.FinalizeWrites` | crates/netbadb-change-stream/src/lib.rs:2121-2239 | in every reachable world a finalize that publishes has written one marker for each candidate, in order, and synced them if it was to; their reservations are gone, and unless it synced each waits for its checkpoint |
| `Meaning.CheckpointMeans` | crates/netbadb-change-stream/src/lib.rs:1179-1218 | a checkpoint syncs once exactly when something is pending, and then nothing is and the checkpoint is at the committed frontier |
| `Meaning.AbandonMeans` | crates/netbadb-change-stream/src/lib.rs:1250-1266 | abandoning removes that reservation and no other, and refuses exactly one that another was made after, as not the tail |
| `Meaning.HistoryIsPublished` | crates/netbadb-change-stream/src/lib.rs:2367-2380 | every batch of the history is its reservation under the version its commit gives it |
| `Meaning.RecoveredIsPublished` | crates/netbadb-change-stream/src/lib.rs:2241-2345 | and so is every batch an open gives back after any machine crash |
| `Meaning.SizesAreBytes` | crates/netbadb-change-stream/src/lib.rs:2190-2220 | the sizes kept for a batch are the lengths of its framed record and of its marker |
| `Meaning.AcquireMeans` | crates/netbadb-change-stream/src/lib.rs:1352-1391 | acquiring registers exactly the cursor under an unused id and touches no other pin |
| `Meaning.AdvanceMeans` | crates/netbadb-change-stream/src/lib.rs:1393-1430 | advancing moves that pin to the frontier asked for, never back, and touches no other |
| `Meaning.PinnedCursorReads` | crates/netbadb-change-stream/src/lib.rs:1352-1566 | a pinned cursor stays readable in its incarnation through any run that does not touch the pin |
| `Meaning.GcMeans` | crates/netbadb-change-stream/src/lib.rs:1432-1566 | GC drops exactly the leading batches that end at or before the frontier, past no live pin, leaves a header of the current version that starts there, reports what it did, and stays the same incarnation up to the same frontier and sequence |
| `Acceptance.ReadAnswers` | crates/netbadb-change-stream/src/lib.rs:1302-1350 | in every reachable world a read succeeds exactly for cursors inside the history and is refused for the storage, the incarnation or the frontier otherwise, never for a gap |
| `Acceptance.AcquireSucceedsIff` | crates/netbadb-change-stream/src/lib.rs:1352-1391 | a cursor can be pinned exactly when it can be read and an id is left, and is refused for the same reasons or as exhausted |
| `Acceptance.AdvanceSucceedsIff` | crates/netbadb-change-stream/src/lib.rs:1393-1430 | any pin can be moved exactly to frontiers not before its own at which its cursor can be read, while its holder has not given it up and the registry has it for the same stream; how it is refused otherwise |
| `Acceptance.GcSucceedsIff` | crates/netbadb-change-stream/src/lib.rs:1432-1497 | GC succeeds exactly for frontiers of the history at or before every live pin, with nothing reserved and nothing pending; a live pin below the frontier is always reported, by the lowest frontier held, and otherwise the history is unavailable exactly outside its range |
| `Acceptance.GcCheckAnswers` | crates/netbadb-change-stream/src/lib.rs:1432-1497 | the same order of refusals on any enabled stream whatsoever |
| `Acceptance.StageSucceedsIff` | crates/netbadb-change-stream/src/lib.rs:1730-1813 | a new transaction gets a reservation exactly when a frontier, a sequence and the bytes are left and every change can be written |
| `Answers.StageRefusedAs` | crates/netbadb-change-stream/src/lib.rs:1730-1813 | and is otherwise refused as exhausted, as the encoder refuses its record, or for want of bytes; one that succeeds appends exactly that record |
| `Answers.PublishesUnlessZero` | crates/netbadb-change-stream/src/lib.rs:2004-2119 | in every reachable world publishing the oldest durable reservations succeeds if and only if no LSM version of zero would be published, and is otherwise refused for one |
| `Answers.FinalizeCheckIff` | crates/netbadb-change-stream/src/lib.rs:2048-2119 | the check of finalize on any stream: exactly which candidates pass, and that what it finds in others is so |
| `Answers.FinalizeRefusedAs` | crates/netbadb-change-stream/src/lib.rs:2004-2119 | a refused finalize changes nothing, and its error says what is so of the candidates |
| `Answers.BarrierRefusedAs` | crates/netbadb-change-stream/src/lib.rs:1815-1886 | the same of a refused barrier |
| `Answers.FailedStagePoisons` | crates/netbadb-change-stream/src/lib.rs:1036-1080 | a stage that would write and cannot leaves the stream unavailable under its generation, with the record in the file or not, and everything else as it was |
| `Answers.FailedSyncPoisons` | crates/netbadb-change-stream/src/lib.rs:1179-1248 | so does a barrier or a checkpoint that would sync and cannot; one that need not sync does not fail |
| `Answers.FailedFinalizePoisons` | crates/netbadb-change-stream/src/lib.rs:1111-1248 | and a finalize, with exactly the markers up to the fault in the file |
| `Answers.NotEnabledAnswers` | crates/netbadb-change-stream/src/lib.rs:1036-1497 | what a disabled and what an unavailable stream answer to every call, without changing |
| `Answers.EnableMeans` | crates/netbadb-change-stream/src/lib.rs:942-1004 | an enabled stream answers where it stands, the last generation has no successor, and otherwise the next one begins, empty, at the baseline with sequence 1 still to give, and stands in the guard |
| `Answers.DisableMeans` | crates/netbadb-change-stream/src/lib.rs:1006-1031 | a disabled stream keeps its generation and no guard, and the next enable takes the generation after it |
| `ManagerRuns.EnableIsStep` | crates/netbadb-change-stream/src/lib.rs:942-1004 | enabling is the enable step or its failure before the header, before the guard or after it, and the cursor returned is of the live generation and at the end of the stream |
| `ManagerRuns.DisableIsStep` | crates/netbadb-change-stream/src/lib.rs:1006-1031 | disabling is the disable step, or its failure before the header, before the guard's removal or after it |
| `ManagerRuns.ReenablingStartsAfresh` | crates/netbadb-change-stream/src/lib.rs:942-1031 | disabling and enabling again gives the next generation, empty at its baseline, from which no earlier cursor reads |
| `ManagerRuns.PrepareIsSteps` | crates/netbadb-change-stream/src/lib.rs:1036-1063 | preparing one transaction is the stage step and then the barrier step, each failing or not |
| `ManagerRuns.StageIsStep` | crates/netbadb-change-stream/src/lib.rs:1067-1080 | a stage call, failing or not, is that step of a run |
| `ManagerRuns.DurabilizeIsStep` | crates/netbadb-change-stream/src/lib.rs:1082-1108 | the same for the durability barrier |
| `ManagerRuns.FinalizeIsStep` | crates/netbadb-change-stream/src/lib.rs:1111-1173 | the same for finalize, with a fault at any marker or in the sync |
| `ManagerRuns.CheckpointIsStep` | crates/netbadb-change-stream/src/lib.rs:1179-1218 | the same for the checkpoint |
| `ManagerRuns.AbandonIsStep` | crates/netbadb-change-stream/src/lib.rs:1250-1266 | the same for abandoning what the ledger aborts |
| `ManagerRuns.PinsAreSteps` | crates/netbadb-change-stream/src/lib.rs:1352-1430 | the same for acquiring and advancing pins |
| `ManagerRuns.GcIsStep` | crates/netbadb-change-stream/src/lib.rs:1432-1566 | the same for GC |
| `Planner.MakeCandidate` | crates/netbadb-advisor/src/lib.rs:261-302 | a candidate is eligible exactly when nothing blocks it and the budget admits its estimate; the blocker is the structural one, else being busy, else the first limit exceeded |
| `Planner.CompareIsRank` | crates/netbadb-advisor/src/lib.rs:333-354 | the comparator orders by class, then round the ring of targets from the cursor |
| `Planner.PlanMaintenance` | crates/netbadb-advisor/src/lib.rs:304-324 | sorts into a permutation by kind of work and target, stable for equal ones; decides, field by field, for an eligible candidate that no other one leads round the ring from the cursor, and for none exactly when nothing is eligible |
| `Planner.PlanChooses` | crates/netbadb-advisor/src/lib.rs:304-324 | the decision names the action, reason, bound and each estimate of an eligible candidate that leads all others; none exactly when nothing is eligible |
| `Planner.SortIsStable` | crates/netbadb-advisor/src/lib.rs:304-324 | candidates of one kind and target stay in the order they came in |
| `Planner.FirstOfThose` | crates/netbadb-advisor/src/lib.rs:304-324 | and of those the first eligible one is decided on |
| `Planner.PlanByKind` | crates/netbadb-advisor/src/lib.rs:355-363 | an eligible flush comes before an advance, that before change history, that before LSM compaction, that before columnar compaction |
| `Planner.PlanByTarget` | crates/netbadb-advisor/src/lib.rs:330-353 | within a kind the next higher target behind the last one, or the lowest |
| `Planner.DecisionKeyIsOrderFree` | crates/netbadb-advisor/src/lib.rs:304-324 | the decided class and target never depend on the order of the input |
| `Planner.PlanIsOrderFree` | crates/netbadb-advisor/src/lib.rs:304-331 | with distinct keys the whole inspection does not depend on the order of the input |
| `PlannerFairness.NotChosenAgain` | crates/netbadb-core/src/maintenance.rs:95-116 | while a target waits unserved and no higher class is eligible, no other target whose action succeeded is chosen again, whatever fails in between |
| `PlannerFairness.BoundedWaiting` | crates/netbadb-core/src/maintenance.rs:95-116 | in any stretch of steps in which as many actions succeed as there are targets, a target that waits throughout is chosen and served, however candidates come and go and whatever fails |
| `PlannerFairness.RetriedIffFailed` | crates/netbadb-core/src/maintenance.rs:95-116 | among unchanged candidates, with another target of the class waiting, a target is chosen again if and only if its action failed |
| `PlannerFairness.FailuresStarve` | crates/netbadb-core/src/maintenance.rs:95-116 | through any run of failures among unchanged candidates every choice is the first one, so every other target goes unserved |
| `Scheduler.NewPolicy` | crates/netbadb-advisor/src/lib.rs:440-474 | a policy is accepted exactly when no retry undercuts a positive minimum, and refused for what is wrong with it, with the numbers |
| `Scheduler.RunsKeepCadence` | crates/netbadb-advisor/src/lib.rs:616-727 | the gate never opens within the minimum of the last run, whatever its state and the evidence |
| `Scheduler.AutomaticScheduler.constructor` | crates/netbadb-core/src/automatic_scheduler.rs:82-89 | a scheduler starts open, without ticks |
| `Scheduler.AutomaticScheduler.Tick` | crates/netbadb-core/src/automatic_scheduler.rs:140-202 | the whole new state of one tick, with at most one run |
| `Scheduler.RunsAreSpaced` | crates/netbadb-core/src/automatic_scheduler.rs:139-202 | over any sequence of ticks consecutive runs are the minimum apart |
| `Scheduler.RunsPerWindow` | crates/netbadb-core/src/automatic_scheduler.rs:139-202 | a window of T ticks holds at most 1 + T/minimum runs |
| `Scheduler.FaultIsFinal` | crates/netbadb-core/src/automatic_scheduler.rs:139-202 | a faulted scheduler never runs again |
| `Scheduler.NextRunIff` | crates/netbadb-advisor/src/lib.rs:616-727 | after any run and any ticks held since, a tick gets past the gate if and only if it is new and has waited for what that run asked: the minimum, the idle or the fruitless retry, changed evidence or the trial retry, or a newer evidence window |
| `Scheduler.FirstDueRuns` | crates/netbadb-advisor/src/lib.rs:616-727 | so the first tick that is due gets past, and none before it |
| `Scheduler.NeverHeldForever` | crates/netbadb-core/src/automatic_scheduler.rs:218-248 | a scheduler that has not faulted is never held forever |
| `Scheduler.FirstRun` | crates/netbadb-advisor/src/lib.rs:636-638 | until something has run, every tick gets past the gate |
| `Scheduler.HoldIsExact` | crates/netbadb-advisor/src/lib.rs:639-727 | a hold names the last run and a delay that has not passed, after which a new tick on the same evidence runs |
| `Scheduler.HeldAfterRun` | crates/netbadb-core/src/automatic_scheduler.rs:218-248 | after any run and any ticks held since, a tick that is not due is held for what that run asked: the minimum, a retry, its trial, or its epoch and recommendation, or its fault |
| `Scheduler.OnlyRunsAreRecorded` | crates/netbadb-core/src/automatic_scheduler.rs:140-202 | a tick is recorded as a run exactly when it gets past the gate and the runner does not refuse |
| `Scheduler.RejectedIff` | crates/netbadb-advisor/src/lib.rs:622-633 | a tick is turned away exactly for being older than one already seen |
| `Position.ByteOffsetToPosition` | cmd/netbadb-lsp/src/lib.rs:372-419 | the loop computes the line and UTF-16 column defined by line ends, or the specified error |
| `Position.ConvertsIff` | cmd/netbadb-lsp/src/lib.rs:372-419 | conversion succeeds exactly at the start of a scalar, not inside a CR LF pair, on a line and column 32 bits can hold |
| `Position.RefusedAs` | cmd/netbadb-lsp/src/lib.rs:372-419 | and otherwise fails exactly for an offset beyond the text, inside a scalar, between a carriage return and its line feed, or on a line or column too far out |
| `Position.PositionsIncrease` | cmd/netbadb-lsp/src/lib.rs:372-419 | positions grow strictly with the offset, so no two offsets share one |
| `Position.SpanToRange` | cmd/netbadb-lsp/src/lib.rs:422-433 | both ends converted, in order, equal exactly for an empty span |
| `Position.NextPosition` | cmd/netbadb-lsp/src/lib.rs:372-419 | a line feed and a lone carriage return start a new line, a carriage return and line feed together one, and anything else moves the column on by its UTF-16 units |
| `Position.Utf8RoundTrip` | cmd/netbadb-lsp/src/lib.rs:372-419 | the bytes counted for a scalar are those of its UTF-8 encoding, which decodes to it |
| `Position.Utf8IsShortest` | cmd/netbadb-lsp/src/lib.rs:372-419 | that encoding is the shortest well-formed one |
| `Position.Utf16RoundTrip` | cmd/netbadb-lsp/src/lib.rs:372-419 | the units counted are those of its UTF-16 encoding, which decodes to it |
| `Position.CountsAreLengths` | cmd/netbadb-lsp/src/lib.rs:372-419 | offsets and columns are lengths of the encoded text |

## Left out

- Paths, directory syncs, a guard that cannot be written during an open, and I/O errors at or after the rename in a GC or in the header rewrite of a disable, where the manager keeps its old file handle.
- An unavailable stream of unknown generation, which disabling turns into a header that cannot be read again.
- CRC32C, schema fingerprints and the row codec: the checksum is any function of the bytes, a row is its encoded byte string.
- The counters of syncs by reason and the report structures, apart from the number of syncs; the overflow checks of their sums.
- A machine crash keeps a prefix of the bytes behind the medium; writes that reach the medium out of order are not modelled. What a run does after a machine crash that lost a committed batch is not part of it.
- Manager.ChangeStreamManager.FinalizeBatch: does not model the overflow check on the file size while markers are appended, which needs a file of 2^64 bytes.
- Manager.ChangeStreamManager.AdvancePin: does not model handing a pin to a manager other than its own.
- Opening is the method Opening.Open on the bytes of log and guard, not a constructor of the class.
- Position.ByteOffsetToPosition: does not model 64-bit overflow of its counters, which needs a text of 2^64 bytes.
- The manager's state is one value that methods replace field by field; sharing of the pin registry between handles is not modelled.
- Inspections, budgets and their arithmetic, LSM flush and compaction proposals, the database step around the planner beyond its cursor.
- Network clients, command line tools, code generation, the LSP server loop, heap, B+Tree, LSM, coordinator, planner and executor of queries.
