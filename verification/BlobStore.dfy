/** The content-addressed blob store as a step system: any number of `create_blob`
    calls, references coming and going, and garbage collection, all interleaved.

    Two facts of the database are built into the steps: an advisory lock is exclusive and
    held until its transaction ends, and a row locked for update can neither be locked
    by another transaction nor gain a reference from one. */
module BlobStore {
  import opened Wrappers

  type Bytes = seq<nat>

  /** The primitives of the store: SHA-256, the advisory-lock key derived from it,
      compression, and encryption with the hash bound as associated data. */
  datatype Codec = Codec(
    hash: Bytes -> Bytes,
    lockKey: Bytes -> Bytes,
    compress: Bytes -> Bytes,
    decompress: Bytes -> Option<Bytes>,
    encrypt: (Bytes, nat, Bytes) -> Bytes,
    decrypt: (Bytes, nat, Bytes) -> Bytes)

  /** Inverse pairs, and a hash without collisions. */
  ghost predicate Lawful(k: Codec) {
    && (forall a, b :: k.hash(a) == k.hash(b) ==> a == b)
    && (forall x :: k.decompress(k.compress(x)) == Some(x))
    && (forall x, key, aad :: k.decrypt(k.encrypt(x, key, aad), key, aad) == x)
  }

  /** Whose transaction: an outer one (`create_blob` called inside `atomic()`), the one a
      bare call opens for itself, or a garbage-collection run. */
  datatype Owner = Outer(txn: nat) | Inner(call: nat) | Gc(run: nat)

  /** `owner` is the transaction that inserted the row and has not committed yet. */
  datatype Row = Row(sha: Bytes, size: nat, raw: Bytes, zstd: bool, keyId: nat, owner: Option<Owner>)

  /** A row that references a blob; upload reservations carry an expiry time. */
  datatype Ref = Ref(blob: nat, expires: Option<nat>, owner: Option<Owner>)

  datatype Encoding = Encoding(raw: Bytes, zstd: bool, keyId: nat)

  datatype Pc =
    | Start
    | Missed
    | Encoded(enc: Encoding)
    | Locked(enc: Encoding)
    | Vacant(enc: Encoding)
    | Got(blob: nat)
    | Done(blob: nat)
    | Failed

  datatype Call = Call(owner: Owner, content: Bytes, pc: Pc)

  datatype GcPc = GcWants(blob: nat, sha: Bytes) | GcLocked(blob: nat, sha: Bytes) | GcHasRow(blob: nat, sha: Bytes)

  datatype State = State(
    rows: map<nat, Row>,
    refs: map<nat, Ref>,
    advisory: map<Bytes, Owner>,
    rowLocks: map<nat, Owner>,
    calls: map<nat, Call>,
    gcs: map<nat, GcPc>,
    now: nat,
    nextBlob: nat)

  const INITIAL := State(map[], map[], map[], map[], map[], map[], 0, 0)

  // ------------------------------------------------------------------
  // Reading and writing one row
  // ------------------------------------------------------------------

  function Encode(k: Codec, content: Bytes, zstd: bool, keyId: nat): Encoding {
    Encoding(k.encrypt(if zstd then k.compress(content) else content, keyId, k.hash(content)), zstd, keyId)
  }

  function NewRow(k: Codec, content: Bytes, enc: Encoding, owner: Owner): Row {
    Row(k.hash(content), |content|, enc.raw, enc.zstd, enc.keyId, Some(owner))
  }

  /** `Blob.get_content`; `None` stands for every error it raises. */
  function GetContent(k: Codec, row: Row, verifyHash: bool): Option<Bytes> {
    var compressed := k.decrypt(row.raw, row.keyId, row.sha);
    var plain := if row.zstd then k.decompress(compressed) else Some(compressed);
    if plain.None? then None
    else if row.zstd && |plain.value| > row.size then None
    else if verifyHash && k.hash(plain.value) != row.sha then None
    else plain
  }

  /** The row gives back `content`, whether or not the hash is verified, and is filed
      under its hash. */
  ghost predicate Holds(k: Codec, row: Row, content: Bytes) {
    && row.sha == k.hash(content)
    && GetContent(k, row, true) == Some(content)
    && GetContent(k, row, false) == Some(content)
  }

  // ------------------------------------------------------------------
  // Steps
  // ------------------------------------------------------------------

  datatype Step =
    | BeginCall(call: nat, owner: Owner, content: Bytes)
    | LookupHit(call: nat, blob: nat)
    | LookupMiss(call: nat)
    | CompressAndEncrypt(call: nat, zstd: bool, keyId: nat)
    | TakeLock(call: nat)
    | RecheckHit(call: nat, blob: nat)
    | RecheckMiss(call: nat)
    | Insert(call: nat)
    | AddRef(ref: nat, blob: nat, expires: Option<nat>, holder: Option<Owner>)
    | DropRef(ref: nat)
    | Commit(owner: Owner)
    | Rollback(owner: Owner)
    | GcPick(run: nat, blob: nat)
    | GcTakeLock(run: nat)
    | GcTakeRow(run: nat)
    | GcFinish(run: nat)
    | Tick

  predicate Visible(row: Row, owner: Option<Owner>) {
    row.owner.None? || row.owner == owner
  }

  predicate Free<K(==)>(locks: map<K, Owner>, key: K, owner: Owner) {
    key in locks ==> locks[key] == owner
  }

  /** Nobody else holds the row, nor a reference to it that is still uncommitted. */
  predicate CanLockRow(s: State, blob: nat, owner: Owner) {
    && Free(s.rowLocks, blob, owner)
    && forall r :: r in s.refs && s.refs[r].blob == blob ==> s.refs[r].owner in {None, Some(owner)}
  }

  predicate NoVisibleRow(s: State, sha: Bytes, owner: Owner) {
    forall b :: b in s.rows && Visible(s.rows[b], Some(owner)) ==> s.rows[b].sha != sha
  }

  /** Referenced by a committed row that has not expired: `is_referenced`. */
  predicate IsReferenced(s: State, blob: nat) {
    exists r :: r in s.refs && s.refs[r].blob == blob && s.refs[r].owner.None? && Live(s.refs[r], s.now)
  }

  predicate Live(ref: Ref, now: nat) {
    ref.expires.None? || ref.expires.value > now
  }

  /** The call has not returned yet. */
  predicate Running(pc: Pc) {
    !pc.Got? && !pc.Done? && !pc.Failed?
  }

  /** A transaction runs its calls one after the other; empty content is refused. */
  predicate Enabled(k: Codec, s: State, step: Step) {
    match step
    case BeginCall(c, owner, content) =>
      && c !in s.calls && content != [] && (owner.Outer? || owner == Inner(c))
      && forall d :: d in s.calls && s.calls[d].owner == owner ==> !Running(s.calls[d].pc)
    case LookupHit(c, b) =>
      && c in s.calls && s.calls[c].pc.Start?
      && b in s.rows && Visible(s.rows[b], Some(s.calls[c].owner))
      && s.rows[b].sha == k.hash(s.calls[c].content)
      && (s.calls[c].owner.Outer? ==> CanLockRow(s, b, s.calls[c].owner))
    case LookupMiss(c) =>
      && c in s.calls && s.calls[c].pc.Start?
      && NoVisibleRow(s, k.hash(s.calls[c].content), s.calls[c].owner)
    case CompressAndEncrypt(c, _, _) => c in s.calls && s.calls[c].pc.Missed?
    case TakeLock(c) =>
      && c in s.calls && s.calls[c].pc.Encoded?
      && Free(s.advisory, k.lockKey(k.hash(s.calls[c].content)), s.calls[c].owner)
    case RecheckHit(c, b) =>
      && c in s.calls && s.calls[c].pc.Locked?
      && b in s.rows && Visible(s.rows[b], Some(s.calls[c].owner))
      && s.rows[b].sha == k.hash(s.calls[c].content)
    case RecheckMiss(c) =>
      && c in s.calls && s.calls[c].pc.Locked?
      && NoVisibleRow(s, k.hash(s.calls[c].content), s.calls[c].owner)
    case Insert(c) => c in s.calls && s.calls[c].pc.Vacant?
    case AddRef(r, b, _, holder) =>
      && r !in s.refs && b in s.rows && Visible(s.rows[b], holder)
      && (b in s.rowLocks ==> Some(s.rowLocks[b]) == holder)
      && (holder.Some? ==> !holder.value.Gc?)
    case DropRef(r) => r in s.refs && s.refs[r].owner.None?
    case Commit(owner) =>
      !owner.Gc? && forall c :: c in s.calls && s.calls[c].owner == owner ==> !Running(s.calls[c].pc)
    case Rollback(owner) => !owner.Gc?
    case GcPick(g, b) => g !in s.gcs && b in s.rows && s.rows[b].owner.None?
    case GcTakeLock(g) =>
      g in s.gcs && s.gcs[g].GcWants? && Free(s.advisory, k.lockKey(s.gcs[g].sha), Gc(g))
    case GcTakeRow(g) =>
      && g in s.gcs && s.gcs[g].GcLocked?
      && (s.gcs[g].blob in s.rows && s.rows[s.gcs[g].blob].owner.None? ==> CanLockRow(s, s.gcs[g].blob, Gc(g)))
    case GcFinish(g) => g in s.gcs && s.gcs[g].GcHasRow?
    case Tick => true
  }

  function SetPc(s: State, c: nat, pc: Pc): State
    requires c in s.calls
  {
    s.(calls := s.calls[c := s.calls[c].(pc := pc)])
  }

  function Release<K>(locks: map<K, Owner>, owner: Owner): map<K, Owner> {
    map x | x in locks && locks[x] != owner :: locks[x]
  }

  function Unlock(s: State, owner: Owner): State {
    s.(advisory := Release(s.advisory, owner), rowLocks := Release(s.rowLocks, owner))
  }

  function CommitOwner(s: State, owner: Owner): State {
    Unlock(s, owner).(
      rows := map b | b in s.rows :: if s.rows[b].owner == Some(owner) then s.rows[b].(owner := None) else s.rows[b],
      refs := map r | r in s.refs :: if s.refs[r].owner == Some(owner) then s.refs[r].(owner := None) else s.refs[r],
      calls := map c | c in s.calls ::
        if s.calls[c].owner == owner && s.calls[c].pc.Got? then s.calls[c].(pc := Done(s.calls[c].pc.blob))
        else s.calls[c])
  }

  function RollbackOwner(s: State, owner: Owner): State {
    Unlock(s, owner).(
      rows := map b | b in s.rows && s.rows[b].owner != Some(owner) :: s.rows[b],
      refs := map r | r in s.refs && s.refs[r].owner != Some(owner) :: s.refs[r],
      calls := map c | c in s.calls ::
        if s.calls[c].owner == owner && !s.calls[c].pc.Done? then s.calls[c].(pc := Failed) else s.calls[c])
  }

  /** A run ends: its locks go with its transaction. */
  function EndGc(s: State, g: nat): State {
    Unlock(s, Gc(g)).(gcs := s.gcs - {g})
  }

  function DeleteBlob(s: State, blob: nat): State {
    s.(rows := s.rows - {blob},
       refs := map r | r in s.refs && s.refs[r].blob != blob :: s.refs[r])
  }

  function Apply(k: Codec, s: State, step: Step): State
    requires Enabled(k, s, step)
  {
    match step
    case BeginCall(c, owner, content) => s.(calls := s.calls[c := Call(owner, content, Start)])
    case LookupHit(c, b) =>
      var s1 := SetPc(s, c, Got(b));
      if s.calls[c].owner.Outer? then s1.(rowLocks := s.rowLocks[b := s.calls[c].owner]) else s1
    case LookupMiss(c) => SetPc(s, c, Missed)
    case CompressAndEncrypt(c, zstd, keyId) => SetPc(s, c, Encoded(Encode(k, s.calls[c].content, zstd, keyId)))
    case TakeLock(c) =>
      SetPc(s, c, Locked(s.calls[c].pc.enc)).(
        advisory := s.advisory[k.lockKey(k.hash(s.calls[c].content)) := s.calls[c].owner])
    case RecheckHit(c, b) => SetPc(s, c, Got(b))
    case RecheckMiss(c) => SetPc(s, c, Vacant(s.calls[c].pc.enc))
    case Insert(c) =>
      SetPc(s, c, Got(s.nextBlob)).(
        rows := s.rows[s.nextBlob := NewRow(k, s.calls[c].content, s.calls[c].pc.enc, s.calls[c].owner)],
        nextBlob := s.nextBlob + 1)
    case AddRef(r, b, expires, holder) => s.(refs := s.refs[r := Ref(b, expires, holder)])
    case DropRef(r) => s.(refs := s.refs - {r})
    case Commit(owner) => CommitOwner(s, owner)
    case Rollback(owner) => RollbackOwner(s, owner)
    case GcPick(g, b) => s.(gcs := s.gcs[g := GcWants(b, s.rows[b].sha)])
    case GcTakeLock(g) =>
      s.(gcs := s.gcs[g := GcLocked(s.gcs[g].blob, s.gcs[g].sha)],
         advisory := s.advisory[k.lockKey(s.gcs[g].sha) := Gc(g)])
    case GcTakeRow(g) =>
      var b := s.gcs[g].blob;
      if b in s.rows && s.rows[b].owner.None? then
        s.(gcs := s.gcs[g := GcHasRow(b, s.gcs[g].sha)], rowLocks := s.rowLocks[b := Gc(g)])
      else EndGc(s, g)
    case GcFinish(g) =>
      if IsReferenced(s, s.gcs[g].blob) then EndGc(s, g)
      else EndGc(DeleteBlob(s, s.gcs[g].blob), g)
    case Tick => s.(now := s.now + 1)
  }

  // ------------------------------------------------------------------
  // Whole runs
  // ------------------------------------------------------------------

  /** `steps` can be taken one after the other from `s`. */
  predicate CanRun(k: Codec, s: State, steps: seq<Step>)
    decreases |steps|
  {
    steps == [] || (Enabled(k, s, steps[0]) && CanRun(k, Apply(k, s, steps[0]), steps[1..]))
  }

  function Run(k: Codec, s: State, steps: seq<Step>): State
    requires CanRun(k, s, steps)
    decreases |steps|
  {
    if steps == [] then s else Run(k, Apply(k, s, steps[0]), steps[1..])
  }
}
