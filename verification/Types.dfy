/** Fixed-width integers, failure wrappers and the value types of the change stream. */

module Wrappers {
  datatype Option<+T> = None | Some(value: T)

  datatype Result<+T, +E> = Ok(value: T) | Err(error: E) {
    predicate IsFailure() { Err? }

    function PropagateFailure<U>(): Result<U, E>
      requires Err?
    {
      Err(error)
    }

    function Extract(): T
      requires Ok?
    {
      value
    }
  }

  /** Appending one more behind two sequences. */
  lemma Regroup<T>(a: seq<T>, b: seq<T>, x: T)
    ensures a + (b + [x]) == (a + b) + [x]
  {
  }

  /** Overwriting on top of two maps. */
  lemma Overwrite<K, V>(a: map<K, V>, b: map<K, V>, k: K, v: V)
    ensures a + b[k := v] == (a + b)[k := v]
  {
  }
}

module Widths {
  const MAX_U16: int := 0xFFFF
  const MAX_U32: int := 0xFFFF_FFFF
  const MAX_U64: int := 0xFFFF_FFFF_FFFF_FFFF

  type byte = x: int | 0 <= x < 256
  type u16 = x: int | 0 <= x <= MAX_U16
  type u32 = x: int | 0 <= x <= MAX_U32
  type u64 = x: int | 0 <= x <= MAX_U64
}

/** The rows, batches, headers, log records and errors that every other module speaks of. */
module ChangeTypes {
  import opened Wrappers
  import opened Widths

  datatype StorageKind = HeapStorage | LsmStorage

  /** One committed physical row version.  An LSM version of 0 is a placeholder
      that the commit sequence replaces when the transaction is finalized. */
  datatype VersionKey =
    | HeapKey(storageId: u64, page: u64, slot: u16, generation: u32)
    | LsmKey(storageId: u64, rowId: u64, version: u64)

  /** A row is carried as its canonical encoding. */
  type Row = seq<byte>

  datatype Change =
    | Insert(newVersion: VersionKey, after: Row)
    | Update(oldVersion: VersionKey, newVersion: VersionKey, after: Row)
    | Delete(oldVersion: VersionKey)

  /** A 32-byte schema fingerprint. */
  type Fingerprint = f: seq<byte> | |f| == 32 witness seq(32, _ => 0)

  datatype Batch = Batch(
    sequence: u64,
    txn: u64,
    databaseTxn: Option<u64>,
    tableId: u64,
    storageId: u64,
    fingerprint: Fingerprint,
    before: u64,
    after: u64,
    mutations: seq<Change>)

  datatype Header = Header(
    version: u16,
    active: bool,
    kind: StorageKind,
    storageId: u64,
    tableId: u64,
    fingerprint: Fingerprint,
    generation: u64,
    origin: u64,
    earliest: u64,
    current: u64,
    nextSequence: u64)

  /** One record of the log after its header. */
  datatype Record =
    | Prepared(batch: Batch)
    | Finalize(txn: u64, commit: Option<u64>)

  /** What the authoritative engine says about one physical transaction. */
  datatype Outcome = Committed(commit: Option<u64>) | Aborted | Unresolved

  datatype HeaderFault =
    | FlagsOrReserved | ZeroIdentity | FrontiersOutOfOrder | ZeroNextSequence
    | UnknownStorageKind | EmptyLogFrontiers | HistoryEndsEarly | SchemaMismatch

  datatype RecordFault =
    | UnknownTag | ReservedBytes | ZeroRecordIdentity | RecordContext
    | CountExceedsBytes | TrailingBytes | UnknownMutationTag | InvalidKeyTag
    | ZeroHeapGeneration | ZeroLsmRow | ZeroLsmVersion | KeyKindMismatch
    | InvalidFinalize | ZeroTransaction | FinalizeWithoutPrepare | DuplicateFinalize
    | DuplicateTransaction | LsmFinalizeWithoutCommit | VersionNotAdvancing
    | NotChainTail | EmptyDurabilityBatch | NotUnresolvedPrefix | PreparedMissing
    | NotExactPrefix | EmptyFinalizeBatch | DuplicateCheckpoint | PreparedChanged
    | FinalizeChanged | NoFinalizeIdentity

  datatype StreamError =
    | Io
    | InvalidMagic
    | UnsupportedVersion(version: int)
    | ChecksumMismatch(offset: int)
    | Truncated(offset: int)
    | InvalidHeader(header: HeaderFault)
    | InvalidRecord(record: RecordFault)
    | RecordTooLarge(size: int)
    | MutationCountTooLarge(count: int)
    | RowPayloadTooLarge(rowSize: int)
    | ContextMismatch
    | StreamIdentityMismatch
    | HistoryUnavailable
    | ChangeGap(expected: int, actual: int)
    | StreamDisabled
    | Busy
    | FinalizeCheckpointPending
    | RetentionPinned(requested: int, pinned: int)
    | RetentionPinRegression(current: int, received: int)
    | RetentionPinUnavailable
    | StreamUnavailable
    | VersionExhausted

  /** The version a change makes live, if any. */
  function NewKey(c: Change): Option<VersionKey> {
    if c.Delete? then None else Some(c.newVersion)
  }

  /** The version a change retires, if any. */
  function OldKey(c: Change): Option<VersionKey> {
    if c.Insert? then None else Some(c.oldVersion)
  }

  predicate KeyMatchesKind(kind: StorageKind, key: VersionKey, allowPending: bool) {
    match (kind, key)
    case (HeapStorage, HeapKey(_, _, _, _)) => true
    case (LsmStorage, LsmKey(_, _, version)) => allowPending || version != 0
    case _ => false
  }

  /** The mutation check of the decoder: right engine, and no placeholder as an old version. */
  predicate ValidPending(kind: StorageKind, c: Change) {
    && (OldKey(c).Some? ==> KeyMatchesKind(kind, OldKey(c).value, false))
    && (NewKey(c).Some? ==> KeyMatchesKind(kind, NewKey(c).value, true))
  }

  /** The stricter check on a committed batch: no placeholder anywhere. */
  predicate ValidCommitted(kind: StorageKind, c: Change) {
    && (OldKey(c).Some? ==> KeyMatchesKind(kind, OldKey(c).value, false))
    && (NewKey(c).Some? ==> KeyMatchesKind(kind, NewKey(c).value, false))
  }
}
