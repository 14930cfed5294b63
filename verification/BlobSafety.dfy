/** What every interleaving of the steps of the blob store keeps, and what the collector may
    and does remove. */
module BlobSafety {
  import opened Wrappers
  import opened BlobStore

  // ------------------------------------------------------------------
  // The invariant
  // ------------------------------------------------------------------

  /** At most one row per hash, each holding what its hash says. */
  ghost predicate RowsOk(k: Codec, s: State) {
    && (forall b :: b in s.rows ==> b < s.nextBlob)
    && (forall a, b :: a in s.rows && b in s.rows && s.rows[a].sha == s.rows[b].sha ==> a == b)
    && (forall b :: b in s.rows ==> exists content :: Holds(k, s.rows[b], content))
  }

  /** Whoever has an uncommitted row holds the lock of its hash. */
  ghost predicate PendingOk(k: Codec, s: State) {
    forall b :: b in s.rows && s.rows[b].owner.Some? ==>
      && !s.rows[b].owner.value.Gc?
      && HoldsLock(k, s, s.rows[b].sha, s.rows[b].owner.value)
  }

  /** Every reference, committed or not, live or expired, points at a row; an
      uncommitted row is referenced only by its own transaction, and no uncommitted
      reference points at a row the collector has locked. */
  ghost predicate RefsOk(s: State) {
    forall r :: r in s.refs ==>
      var b := s.refs[r].blob;
      && b in s.rows
      && (s.refs[r].owner.Some? ==> !s.refs[r].owner.value.Gc?)
      && (s.rows[b].owner.Some? ==> s.refs[r].owner == s.rows[b].owner)
      && (s.refs[r].owner.Some? && b in s.rowLocks ==> !s.rowLocks[b].Gc?)
  }

  ghost predicate HoldsLock(k: Codec, s: State, sha: Bytes, owner: Owner) {
    k.lockKey(sha) in s.advisory && s.advisory[k.lockKey(sha)] == owner
  }

  ghost predicate HoldsRow(s: State, blob: nat, owner: Owner) {
    blob in s.rowLocks && s.rowLocks[blob] == owner
  }

  ghost predicate Carries(k: Codec, content: Bytes, enc: Encoding) {
    forall owner :: Holds(k, NewRow(k, content, enc, owner), content)
  }

  ghost predicate CallOk(k: Codec, s: State, call: Call) {
    var sha := k.hash(call.content);
    && !call.owner.Gc?
    && match call.pc
       case Encoded(enc) => Carries(k, call.content, enc)
       case Locked(enc) => Carries(k, call.content, enc) && HoldsLock(k, s, sha, call.owner)
       case Vacant(enc) =>
         && Carries(k, call.content, enc) && HoldsLock(k, s, sha, call.owner)
         && forall b :: b in s.rows ==> s.rows[b].sha != sha
       case Got(b) =>
         && b < s.nextBlob
         && (b in s.rows ==> Holds(k, s.rows[b], call.content))
         && (call.owner.Outer? ==>
               && b in s.rows && Visible(s.rows[b], Some(call.owner))
               && (HoldsRow(s, b, call.owner) || HoldsLock(k, s, sha, call.owner)))
       case Done(b) => b < s.nextBlob && (b in s.rows ==> Holds(k, s.rows[b], call.content))
       case _ => true
  }

  ghost predicate CallsOk(k: Codec, s: State) {
    forall c :: c in s.calls ==> CallOk(k, s, s.calls[c])
  }

  ghost predicate Sequential(s: State) {
    forall c, d ::
      c in s.calls && d in s.calls && c != d && s.calls[c].owner == s.calls[d].owner
      ==> !Running(s.calls[c].pc) || !Running(s.calls[d].pc)
  }

  ghost predicate GcOk(k: Codec, s: State, g: nat)
    requires g in s.gcs
  {
    var gc := s.gcs[g];
    && gc.blob < s.nextBlob
    && (gc.blob in s.rows ==> s.rows[gc.blob].sha == gc.sha)
    && (!gc.GcWants? ==> HoldsLock(k, s, gc.sha, Gc(g)))
    && (gc.GcHasRow? ==> gc.blob in s.rows && s.rows[gc.blob].owner.None? && HoldsRow(s, gc.blob, Gc(g)))
  }

  ghost predicate GcsOk(k: Codec, s: State) {
    forall g :: g in s.gcs ==> GcOk(k, s, g)
  }

  ghost predicate Inv(k: Codec, s: State) {
    RowsOk(k, s) && PendingOk(k, s) && RefsOk(s) && CallsOk(k, s) && Sequential(s) && GcsOk(k, s)
  }

  // ------------------------------------------------------------------
  // Every step keeps it
  // ------------------------------------------------------------------

  /** What encoding then reading gives back, under any key and compression setting. */
  lemma EncodeCarries(k: Codec, content: Bytes, zstd: bool, keyId: nat)
    requires Lawful(k)
    ensures Carries(k, content, Encode(k, content, zstd, keyId))
  {
  }

  /** A call that moves on without touching the tables or the locks. */
  lemma PcKeeps(k: Codec, s: State, c: nat, pc: Pc)
    requires Inv(k, s) && c in s.calls && CallOk(k, s, s.calls[c].(pc := pc))
    requires Running(s.calls[c].pc)
    ensures Inv(k, SetPc(s, c, pc))
  {
    var t := SetPc(s, c, pc);
    forall d | d in t.calls ensures CallOk(k, t, t.calls[d]) {
      assert d in s.calls && CallOk(k, s, s.calls[d]);
      assert CallOk(k, s, t.calls[d]);
    }
    assert forall g :: g in s.gcs ==> GcOk(k, s, g) == GcOk(k, t, g);
  }

  lemma BeginKeeps(k: Codec, s: State, c: nat, owner: Owner, content: Bytes)
    requires Inv(k, s) && Enabled(k, s, BeginCall(c, owner, content))
    ensures Inv(k, Apply(k, s, BeginCall(c, owner, content)))
  {
    BeginKeepsCalls(k, s, c, owner, content);
    assert forall g :: g in s.gcs ==> GcOk(k, s, g) == GcOk(k, Apply(k, s, BeginCall(c, owner, content)), g);
  }

  lemma BeginKeepsCalls(k: Codec, s: State, c: nat, owner: Owner, content: Bytes)
    requires CallsOk(k, s) && Sequential(s) && Enabled(k, s, BeginCall(c, owner, content))
    ensures var t := Apply(k, s, BeginCall(c, owner, content)); CallsOk(k, t) && Sequential(t)
  {
    var t := Apply(k, s, BeginCall(c, owner, content));
    assert forall d :: d in s.calls ==> CallOk(k, s, s.calls[d]) == CallOk(k, t, s.calls[d]);
  }

  /** Two contents with the hash of one row are the same content. */
  lemma SameHashSameContent(k: Codec, row: Row, content: Bytes)
    requires Lawful(k) && row.sha == k.hash(content)
    requires exists c :: Holds(k, row, c)
    ensures Holds(k, row, content)
  {
  }

  lemma RowLockKeeps(k: Codec, s: State, b: nat, owner: Owner)
    requires Inv(k, s) && owner.Outer? && CanLockRow(s, b, owner)
    ensures Inv(k, s.(rowLocks := s.rowLocks[b := owner]))
  {
    var t := s.(rowLocks := s.rowLocks[b := owner]);
    forall d | d in t.calls ensures CallOk(k, t, t.calls[d]) {
      assert CallOk(k, s, s.calls[d]);
    }
    forall g | g in t.gcs ensures GcOk(k, t, g) {
      assert GcOk(k, s, g);
    }
  }

  lemma LookupHitKeeps(k: Codec, s: State, c: nat, b: nat)
    requires Lawful(k) && Inv(k, s) && Enabled(k, s, LookupHit(c, b))
    ensures Inv(k, Apply(k, s, LookupHit(c, b)))
  {
    SameHashSameContent(k, s.rows[b], s.calls[c].content);
    var owner := s.calls[c].owner;
    if owner.Outer? {
      RowLockKeeps(k, s, b, owner);
      PcKeeps(k, s.(rowLocks := s.rowLocks[b := owner]), c, Got(b));
    } else {
      assert CallOk(k, s, s.calls[c]);
      PcKeeps(k, s, c, Got(b));
    }
  }

  lemma AdvisoryLockKeeps(k: Codec, s: State, key: Bytes, owner: Owner)
    requires Inv(k, s) && Free(s.advisory, key, owner)
    ensures Inv(k, s.(advisory := s.advisory[key := owner]))
  {
    CallsStay(k, s, s.(advisory := s.advisory[key := owner]), 0);
    AdvisoryLockKeepsRuns(k, s, key, owner);
  }

  lemma AdvisoryLockKeepsRuns(k: Codec, s: State, key: Bytes, owner: Owner)
    requires GcsOk(k, s) && Free(s.advisory, key, owner)
    ensures GcsOk(k, s.(advisory := s.advisory[key := owner]))
  {
    var t := s.(advisory := s.advisory[key := owner]);
    forall g | g in t.gcs ensures GcOk(k, t, g) {
      assert GcOk(k, s, g);
    }
  }

  lemma TakeLockKeeps(k: Codec, s: State, c: nat)
    requires Inv(k, s) && Enabled(k, s, TakeLock(c))
    ensures Inv(k, Apply(k, s, TakeLock(c)))
  {
    var owner, key := s.calls[c].owner, k.lockKey(k.hash(s.calls[c].content));
    AdvisoryLockKeeps(k, s, key, owner);
    assert CallOk(k, s, s.calls[c]);
    PcKeeps(k, s.(advisory := s.advisory[key := owner]), c, Locked(s.calls[c].pc.enc));
  }

  lemma RecheckHitKeeps(k: Codec, s: State, c: nat, b: nat)
    requires Lawful(k) && Inv(k, s) && Enabled(k, s, RecheckHit(c, b))
    ensures Inv(k, Apply(k, s, RecheckHit(c, b)))
  {
    SameHashSameContent(k, s.rows[b], s.calls[c].content);
    assert CallOk(k, s, s.calls[c]);
    PcKeeps(k, s, c, Got(b));
  }

  /** Under the lock, no visible row means no row at all. */
  lemma RecheckMissKeeps(k: Codec, s: State, c: nat)
    requires Inv(k, s) && Enabled(k, s, RecheckMiss(c))
    ensures Inv(k, Apply(k, s, RecheckMiss(c)))
  {
    assert CallOk(k, s, s.calls[c]);
    PcKeeps(k, s, c, Vacant(s.calls[c].pc.enc));
  }

  lemma InsertKeepsRows(k: Codec, s: State, c: nat)
    requires Inv(k, s) && Enabled(k, s, Insert(c))
    ensures RowsOk(k, Apply(k, s, Insert(c)))
  {
    var call, t := s.calls[c], Apply(k, s, Insert(c));
    assert CallOk(k, s, call);
    assert Holds(k, t.rows[s.nextBlob], call.content);
    forall b | b in t.rows ensures exists content :: Holds(k, t.rows[b], content) {
      assert b in s.rows ==> t.rows[b] == s.rows[b];
    }
  }

  lemma InsertKeepsLocks(k: Codec, s: State, c: nat)
    requires Inv(k, s) && Enabled(k, s, Insert(c))
    ensures PendingOk(k, Apply(k, s, Insert(c))) && RefsOk(Apply(k, s, Insert(c)))
  {
    assert CallOk(k, s, s.calls[c]);
  }

  lemma InsertKeepsCalls(k: Codec, s: State, c: nat)
    requires Inv(k, s) && Enabled(k, s, Insert(c))
    ensures CallsOk(k, Apply(k, s, Insert(c)))
  {
    var call, t := s.calls[c], Apply(k, s, Insert(c));
    assert CallOk(k, s, call);
    forall d | d in t.calls ensures CallOk(k, t, t.calls[d]) {
      assert CallOk(k, s, s.calls[d]);
      if d == c {
        assert Holds(k, t.rows[s.nextBlob], call.content);
      } else if s.calls[d].pc.Vacant? {
        assert s.calls[d].owner != call.owner;
      }
    }
  }

  lemma InsertKeeps(k: Codec, s: State, c: nat)
    requires Inv(k, s) && Enabled(k, s, Insert(c))
    ensures Inv(k, Apply(k, s, Insert(c)))
  {
    var t := Apply(k, s, Insert(c));
    InsertKeepsRows(k, s, c);
    InsertKeepsLocks(k, s, c);
    InsertKeepsCalls(k, s, c);
    forall g | g in t.gcs ensures GcOk(k, t, g) {
      assert GcOk(k, s, g);
    }
  }

  /** Steps that change neither rows, locks, calls nor collector runs. */
  lemma RefsKeep(k: Codec, s: State, t: State)
    requires Inv(k, s) && RefsOk(t)
    requires t == s.(refs := t.refs, now := t.now)
    ensures Inv(k, t)
  {
    forall c | c in t.calls ensures CallOk(k, t, t.calls[c]) {
      assert CallOk(k, s, s.calls[c]);
    }
    forall g | g in t.gcs ensures GcOk(k, t, g) {
      assert GcOk(k, s, g);
    }
  }

  /** The same stored bytes under the same hash, whoever owns the row. */
  predicate SameBytes(a: Row, b: Row) {
    a == b.(owner := a.owner)
  }

  /** Rows were at most committed or removed, and `owner` kept all its locks. */
  ghost predicate Spares(s: State, t: State, owner: Owner) {
    && t.nextBlob == s.nextBlob
    && (forall b :: b in t.rows ==> b in s.rows && SameBytes(s.rows[b], t.rows[b]))
    && (forall b :: b in t.rows ==> t.rows[b].owner.None? || t.rows[b].owner == s.rows[b].owner)
    && (forall key :: key in s.advisory && s.advisory[key] == owner ==> key in t.advisory && t.advisory[key] == owner)
    && (forall b :: b in s.rowLocks && s.rowLocks[b] == owner ==> b in t.rowLocks && t.rowLocks[b] == owner)
  }

  lemma SparedCall(k: Codec, s: State, t: State, call: Call)
    requires CallOk(k, s, call) && Spares(s, t, call.owner)
    requires call.pc.Got? && call.owner.Outer? ==> call.pc.blob in t.rows
    ensures CallOk(k, t, call)
  {
  }

  lemma SparedRuns(k: Codec, s: State, t: State)
    requires GcsOk(k, s)
    requires forall g :: g in t.gcs ==> g in s.gcs && t.gcs[g] == s.gcs[g] && Spares(s, t, Gc(g))
    requires forall g :: g in t.gcs && t.gcs[g].GcHasRow? ==> t.gcs[g].blob in t.rows
    ensures GcsOk(k, t)
  {
    forall g | g in t.gcs ensures GcOk(k, t, g) {
      assert GcOk(k, s, g);
    }
  }

  /** A row some other run has locked is not gone. */
  lemma LockedRowExists(k: Codec, s: State, g: nat)
    requires GcsOk(k, s) && g in s.gcs && s.gcs[g].GcHasRow?
    ensures s.gcs[g].blob in s.rows && s.rows[s.gcs[g].blob].owner.None? && HoldsRow(s, s.gcs[g].blob, Gc(g))
  {
    assert GcOk(k, s, g);
  }

  lemma SparedRows(k: Codec, s: State, t: State)
    requires RowsOk(k, s)
    requires t.nextBlob == s.nextBlob
    requires forall b :: b in t.rows ==> b in s.rows && SameBytes(s.rows[b], t.rows[b])
    ensures RowsOk(k, t)
  {
    forall b | b in t.rows ensures exists content :: Holds(k, t.rows[b], content) {
      var content :| Holds(k, s.rows[b], content);
      assert Holds(k, t.rows[b], content);
    }
  }

  /** What ending a transaction leaves of the locks and rows of everyone else. */
  lemma CommitSpares(s: State, owner: Owner, other: Owner)
    requires other != owner
    ensures Spares(s, CommitOwner(s, owner), other)
  {
  }

  lemma RollbackSpares(s: State, owner: Owner, other: Owner)
    requires other != owner
    ensures Spares(s, RollbackOwner(s, owner), other)
  {
  }

  lemma CommitKeepsCalls(k: Codec, s: State, owner: Owner)
    requires CallsOk(k, s) && Sequential(s) && Enabled(k, s, Commit(owner))
    ensures CallsOk(k, CommitOwner(s, owner)) && Sequential(CommitOwner(s, owner))
  {
    var t := CommitOwner(s, owner);
    forall c | c in t.calls ensures CallOk(k, t, t.calls[c]) {
      assert CallOk(k, s, s.calls[c]);
      if s.calls[c].owner != owner {
        CommitSpares(s, owner, s.calls[c].owner);
        SparedCall(k, s, t, s.calls[c]);
      }
    }
  }

  lemma CommitKeeps(k: Codec, s: State, owner: Owner)
    requires Inv(k, s) && Enabled(k, s, Commit(owner))
    ensures Inv(k, Apply(k, s, Commit(owner)))
  {
    var t := CommitOwner(s, owner);
    SparedRows(k, s, t);
    CommitKeepsCalls(k, s, owner);
    CommitKeepsRefs(k, s, owner);
    CommitKeepsRuns(k, s, owner);
  }

  lemma CommitKeepsRuns(k: Codec, s: State, owner: Owner)
    requires GcsOk(k, s) && !owner.Gc?
    ensures GcsOk(k, CommitOwner(s, owner))
  {
    var t := CommitOwner(s, owner);
    forall g | g in t.gcs ensures Spares(s, t, Gc(g)) {
      CommitSpares(s, owner, Gc(g));
    }
    forall g | g in t.gcs && t.gcs[g].GcHasRow? ensures t.gcs[g].blob in t.rows {
      LockedRowExists(k, s, g);
    }
    SparedRuns(k, s, t);
  }

  lemma CommitKeepsRefs(k: Codec, s: State, owner: Owner)
    requires PendingOk(k, s) && RefsOk(s) && !owner.Gc?
    ensures PendingOk(k, CommitOwner(s, owner)) && RefsOk(CommitOwner(s, owner))
  {
  }

  lemma RollbackKeepsRefs(k: Codec, s: State, owner: Owner)
    requires PendingOk(k, s) && RefsOk(s) && !owner.Gc?
    ensures PendingOk(k, RollbackOwner(s, owner)) && RefsOk(RollbackOwner(s, owner))
  {
  }

  lemma RollbackKeepsCalls(k: Codec, s: State, owner: Owner)
    requires CallsOk(k, s) && Sequential(s)
    ensures CallsOk(k, RollbackOwner(s, owner)) && Sequential(RollbackOwner(s, owner))
  {
    var t := RollbackOwner(s, owner);
    forall c | c in t.calls ensures CallOk(k, t, t.calls[c]) {
      assert CallOk(k, s, s.calls[c]);
      if s.calls[c].owner != owner {
        RollbackSpares(s, owner, s.calls[c].owner);
        SparedCall(k, s, t, s.calls[c]);
      }
    }
  }

  lemma RollbackKeepsRuns(k: Codec, s: State, owner: Owner)
    requires GcsOk(k, s) && !owner.Gc?
    ensures GcsOk(k, RollbackOwner(s, owner))
  {
    var t := RollbackOwner(s, owner);
    forall g | g in t.gcs ensures Spares(s, t, Gc(g)) {
      RollbackSpares(s, owner, Gc(g));
    }
    forall g | g in t.gcs && t.gcs[g].GcHasRow? ensures t.gcs[g].blob in t.rows {
      LockedRowExists(k, s, g);
    }
    SparedRuns(k, s, t);
  }

  lemma RollbackKeeps(k: Codec, s: State, owner: Owner)
    requires Inv(k, s) && Enabled(k, s, Rollback(owner))
    ensures Inv(k, Apply(k, s, Rollback(owner)))
  {
    var t := RollbackOwner(s, owner);
    SparedRows(k, s, t);
    RollbackKeepsCalls(k, s, owner);
    RollbackKeepsRefs(k, s, owner);
    RollbackKeepsRuns(k, s, owner);
  }

  lemma GcPickKeeps(k: Codec, s: State, g: nat, b: nat)
    requires Inv(k, s) && Enabled(k, s, GcPick(g, b))
    ensures Inv(k, Apply(k, s, GcPick(g, b)))
  {
    CallsStay(k, s, Apply(k, s, GcPick(g, b)), g);
    GcPickKeepsRuns(k, s, g, b);
  }

  lemma GcPickKeepsRuns(k: Codec, s: State, g: nat, b: nat)
    requires RowsOk(k, s) && GcsOk(k, s) && Enabled(k, s, GcPick(g, b))
    ensures GcsOk(k, Apply(k, s, GcPick(g, b)))
  {
    var t := Apply(k, s, GcPick(g, b));
    forall h | h in t.gcs ensures GcOk(k, t, h) {
      assert h != g ==> GcOk(k, s, h);
    }
  }

  lemma GcTakeLockKeeps(k: Codec, s: State, g: nat)
    requires Inv(k, s) && Enabled(k, s, GcTakeLock(g))
    ensures Inv(k, Apply(k, s, GcTakeLock(g)))
  {
    var t := Apply(k, s, GcTakeLock(g));
    CallsStay(k, s, t, g);
    GcTakeLockKeepsRuns(k, s, g);
  }

  lemma GcTakeLockKeepsRuns(k: Codec, s: State, g: nat)
    requires GcsOk(k, s) && Enabled(k, s, GcTakeLock(g))
    ensures GcsOk(k, Apply(k, s, GcTakeLock(g)))
  {
    var t := Apply(k, s, GcTakeLock(g));
    assert GcOk(k, s, g);
    forall h | h in t.gcs ensures GcOk(k, t, h) {
      assert GcOk(k, s, h);
    }
  }

  /** A step of a run that changes neither calls nor rows, and takes no lock from anyone. */
  lemma CallsStay(k: Codec, s: State, t: State, g: nat)
    requires CallsOk(k, s) && t.calls == s.calls && t.rows == s.rows
    requires forall owner :: owner != Gc(g) ==> Spares(s, t, owner)
    ensures CallsOk(k, t)
  {
    forall c | c in s.calls && s.calls[c].pc.Got? && s.calls[c].owner.Outer? ensures s.calls[c].pc.blob in t.rows {
      assert CallOk(k, s, s.calls[c]);
    }
    EndKeepsCalls(k, s, t, g);
  }

  /** A run that ends frees nobody else's locks; before, it may have deleted one row. */
  lemma EndKeepsCalls(k: Codec, s: State, t: State, g: nat)
    requires CallsOk(k, s) && t.calls == s.calls
    requires forall owner :: owner != Gc(g) ==> Spares(s, t, owner)
    requires forall c :: c in s.calls && s.calls[c].pc.Got? && s.calls[c].owner.Outer? ==> s.calls[c].pc.blob in t.rows
    ensures CallsOk(k, t)
  {
    forall c | c in t.calls ensures CallOk(k, t, t.calls[c]) {
      assert CallOk(k, s, s.calls[c]);
      SparedCall(k, s, t, s.calls[c]);
    }
  }

  lemma EndGcKeeps(k: Codec, s: State, g: nat)
    requires Inv(k, s)
    ensures Inv(k, EndGc(s, g))
  {
    var t := EndGc(s, g);
    CallsStay(k, s, t, g);
    forall h | h in t.gcs ensures GcOk(k, t, h) {
      assert GcOk(k, s, h);
    }
  }

  lemma GcTakeRowKeeps(k: Codec, s: State, g: nat)
    requires Inv(k, s) && Enabled(k, s, GcTakeRow(g))
    ensures Inv(k, Apply(k, s, GcTakeRow(g)))
  {
    var b := s.gcs[g].blob;
    if b in s.rows && s.rows[b].owner.None? {
      GcLocksRow(k, s, g);
    } else {
      EndGcKeeps(k, s, g);
    }
  }

  lemma GcLocksRowKeepsRefs(k: Codec, s: State, g: nat)
    requires Inv(k, s) && Enabled(k, s, GcTakeRow(g))
    requires s.gcs[g].blob in s.rows && s.rows[s.gcs[g].blob].owner.None?
    ensures var t := Apply(k, s, GcTakeRow(g)); RowsOk(k, t) && PendingOk(k, t) && RefsOk(t)
  {
    assert GcOk(k, s, g);
  }

  lemma GcLocksRowKeepsCalls(k: Codec, s: State, g: nat)
    requires CallsOk(k, s) && Enabled(k, s, GcTakeRow(g))
    requires s.gcs[g].blob in s.rows && s.rows[s.gcs[g].blob].owner.None?
    ensures CallsOk(k, Apply(k, s, GcTakeRow(g)))
  {
    CallsStay(k, s, Apply(k, s, GcTakeRow(g)), g);
  }

  lemma GcLocksRow(k: Codec, s: State, g: nat)
    requires Inv(k, s) && Enabled(k, s, GcTakeRow(g))
    requires s.gcs[g].blob in s.rows && s.rows[s.gcs[g].blob].owner.None?
    ensures Inv(k, Apply(k, s, GcTakeRow(g)))
  {
    var t := Apply(k, s, GcTakeRow(g));
    assert GcOk(k, s, g);
    GcLocksRowKeepsRefs(k, s, g);
    GcLocksRowKeepsCalls(k, s, g);
    forall h | h in t.gcs ensures GcOk(k, t, h) {
      assert GcOk(k, s, h);
    }
  }

  /** The row the collector is about to delete is not one a call still relies on. */
  lemma GcRowIsUnclaimed(k: Codec, s: State, g: nat, c: nat)
    requires CallsOk(k, s) && GcsOk(k, s) && g in s.gcs && s.gcs[g].GcHasRow?
    requires c in s.calls && s.calls[c].pc.Got? && s.calls[c].owner.Outer?
    ensures s.calls[c].pc.blob in s.rows && s.calls[c].pc.blob != s.gcs[g].blob
  {
    assert GcOk(k, s, g) && CallOk(k, s, s.calls[c]);
  }

  lemma DeleteKeepsRefs(k: Codec, s: State, g: nat)
    requires PendingOk(k, s) && RefsOk(s) && g in s.gcs
    ensures PendingOk(k, EndGc(DeleteBlob(s, s.gcs[g].blob), g))
    ensures RefsOk(EndGc(DeleteBlob(s, s.gcs[g].blob), g))
  {
  }

  lemma DeleteKeepsCalls(k: Codec, s: State, g: nat)
    requires CallsOk(k, s) && GcsOk(k, s) && g in s.gcs && s.gcs[g].GcHasRow?
    ensures CallsOk(k, EndGc(DeleteBlob(s, s.gcs[g].blob), g))
  {
    var t := EndGc(DeleteBlob(s, s.gcs[g].blob), g);
    forall c | c in s.calls && s.calls[c].pc.Got? && s.calls[c].owner.Outer? ensures s.calls[c].pc.blob in t.rows {
      GcRowIsUnclaimed(k, s, g, c);
    }
    EndKeepsCalls(k, s, t, g);
  }

  lemma DeleteKeepsRuns(k: Codec, s: State, g: nat)
    requires GcsOk(k, s) && g in s.gcs && s.gcs[g].GcHasRow?
    ensures GcsOk(k, EndGc(DeleteBlob(s, s.gcs[g].blob), g))
  {
    var t := EndGc(DeleteBlob(s, s.gcs[g].blob), g);
    LockedRowExists(k, s, g);
    forall h | h in t.gcs && t.gcs[h].GcHasRow? ensures t.gcs[h].blob in t.rows {
      LockedRowExists(k, s, h);
    }
    SparedRuns(k, s, t);
  }

  /** Deleting a row nobody references, under its row lock and the lock of its hash. */
  lemma DeleteKeeps(k: Codec, s: State, g: nat)
    requires Lawful(k) && Inv(k, s) && g in s.gcs && s.gcs[g].GcHasRow?
    ensures Inv(k, EndGc(DeleteBlob(s, s.gcs[g].blob), g))
  {
    SparedRows(k, s, EndGc(DeleteBlob(s, s.gcs[g].blob), g));
    DeleteKeepsRefs(k, s, g);
    DeleteKeepsCalls(k, s, g);
    DeleteKeepsRuns(k, s, g);
  }

  /** Only reservations that have expired point at the row. */
  predicate OnlyExpired(s: State, b: nat) {
    forall r :: r in s.refs && s.refs[r].blob == b ==>
      s.refs[r].owner == None && s.refs[r].expires.Some? && s.refs[r].expires.value <= s.now
  }

  /** What the collector drops along with the row has expired. */
  lemma DeletedRefsAreExpired(k: Codec, s: State, g: nat)
    requires Inv(k, s) && Enabled(k, s, GcFinish(g)) && !IsReferenced(s, s.gcs[g].blob)
    ensures OnlyExpired(s, s.gcs[g].blob)
  {
    assert GcOk(k, s, g);
  }

  lemma LookupMissKeeps(k: Codec, s: State, c: nat)
    requires Inv(k, s) && Enabled(k, s, LookupMiss(c))
    ensures Inv(k, Apply(k, s, LookupMiss(c)))
  {
    assert CallOk(k, s, s.calls[c]);
    PcKeeps(k, s, c, Missed);
  }

  lemma EncodeKeeps(k: Codec, s: State, c: nat, zstd: bool, keyId: nat)
    requires Lawful(k) && Inv(k, s) && Enabled(k, s, CompressAndEncrypt(c, zstd, keyId))
    ensures Inv(k, Apply(k, s, CompressAndEncrypt(c, zstd, keyId)))
  {
    assert CallOk(k, s, s.calls[c]);
    EncodeCarries(k, s.calls[c].content, zstd, keyId);
    PcKeeps(k, s, c, Encoded(Encode(k, s.calls[c].content, zstd, keyId)));
  }

  lemma RefStepKeeps(k: Codec, s: State, step: Step)
    requires Inv(k, s) && Enabled(k, s, step)
    requires step.AddRef? || step.DropRef? || step.Tick?
    ensures Inv(k, Apply(k, s, step))
  {
    RefsKeep(k, s, Apply(k, s, step));
  }

  lemma GcFinishKeeps(k: Codec, s: State, g: nat)
    requires Lawful(k) && Inv(k, s) && Enabled(k, s, GcFinish(g))
    ensures Inv(k, Apply(k, s, GcFinish(g)))
  {
    if IsReferenced(s, s.gcs[g].blob) {
      EndGcKeeps(k, s, g);
    } else {
      DeleteKeeps(k, s, g);
    }
  }

  predicate IsCallStep(step: Step) {
    || step.BeginCall? || step.LookupHit? || step.LookupMiss? || step.CompressAndEncrypt?
    || step.TakeLock? || step.RecheckHit? || step.RecheckMiss? || step.Insert?
  }

  predicate IsGcStep(step: Step) {
    step.GcPick? || step.GcTakeLock? || step.GcTakeRow? || step.GcFinish?
  }

  lemma CallStepKeeps(k: Codec, s: State, step: Step)
    requires Lawful(k) && Inv(k, s) && IsCallStep(step) && Enabled(k, s, step)
    ensures Inv(k, Apply(k, s, step))
  {
    match step
    case BeginCall(c, owner, content) => BeginKeeps(k, s, c, owner, content);
    case LookupHit(c, b) => LookupHitKeeps(k, s, c, b);
    case LookupMiss(c) => LookupMissKeeps(k, s, c);
    case CompressAndEncrypt(c, zstd, keyId) => EncodeKeeps(k, s, c, zstd, keyId);
    case TakeLock(c) => TakeLockKeeps(k, s, c);
    case RecheckHit(c, b) => RecheckHitKeeps(k, s, c, b);
    case RecheckMiss(c) => RecheckMissKeeps(k, s, c);
    case Insert(c) => InsertKeeps(k, s, c);
  }

  lemma GcStepKeeps(k: Codec, s: State, step: Step)
    requires Lawful(k) && Inv(k, s) && IsGcStep(step) && Enabled(k, s, step)
    ensures Inv(k, Apply(k, s, step))
  {
    match step
    case GcPick(g, b) => GcPickKeeps(k, s, g, b);
    case GcTakeLock(g) => GcTakeLockKeeps(k, s, g);
    case GcTakeRow(g) => GcTakeRowKeeps(k, s, g);
    case GcFinish(g) => GcFinishKeeps(k, s, g);
  }

  lemma StepKeeps(k: Codec, s: State, step: Step)
    requires Lawful(k) && Inv(k, s) && Enabled(k, s, step)
    ensures Inv(k, Apply(k, s, step))
  {
    if IsCallStep(step) {
      CallStepKeeps(k, s, step);
    } else if IsGcStep(step) {
      GcStepKeeps(k, s, step);
    } else {
      match step
      case Commit(owner) => CommitKeeps(k, s, owner);
      case Rollback(owner) => RollbackKeeps(k, s, owner);
      case _ => RefStepKeeps(k, s, step);
    }
  }

  // ------------------------------------------------------------------
  // Whole runs
  // ------------------------------------------------------------------

  lemma {:induction false} RunKeeps(k: Codec, s: State, steps: seq<Step>)
    requires Lawful(k) && Inv(k, s) && CanRun(k, s, steps)
    ensures Inv(k, Run(k, s, steps))
    decreases |steps|
  {
    if steps != [] {
      StepKeeps(k, s, steps[0]);
      RunKeeps(k, Apply(k, s, steps[0]), steps[1..]);
    }
  }

  /** In every run, however the calls, the references and the collector interleave: at
      most one row exists per hash; every reference points at a row; a call that has
      returned a blob reads back exactly its own content from it as long as the row
      exists, verified or not; and until its transaction ends, the row of a call made
      inside an outer transaction does exist. */
  lemma EveryRunIsSafe(k: Codec, steps: seq<Step>)
    requires Lawful(k) && CanRun(k, INITIAL, steps)
    ensures var s := Run(k, INITIAL, steps);
            && (forall a, b :: a in s.rows && b in s.rows && s.rows[a].sha == s.rows[b].sha ==> a == b)
            && (forall r :: r in s.refs ==> s.refs[r].blob in s.rows)
            && (forall c :: c in s.calls && (s.calls[c].pc.Got? || s.calls[c].pc.Done?) ==>
                  var b := s.calls[c].pc.blob;
                  && (forall verify :: b in s.rows ==> GetContent(k, s.rows[b], verify) == Some(s.calls[c].content))
                  && (s.calls[c].pc.Got? && s.calls[c].owner.Outer? ==> b in s.rows))
  {
    RunKeeps(k, INITIAL, steps);
    var s := Run(k, INITIAL, steps);
    forall c | c in s.calls ensures CallOk(k, s, s.calls[c]) {
    }
  }

  /** The reference holds its row: it is not committed yet, or has no expiry, or has not
      reached it. */
  predicate Holding(s: State, r: nat) {
    r in s.refs && (s.refs[r].owner.Some? || s.refs[r].expires == None || s.now < s.refs[r].expires.value)
  }

  lemma GcFinishSpares(k: Codec, s: State, g: nat, r: nat)
    requires Inv(k, s) && Enabled(k, s, GcFinish(g)) && Holding(s, r)
    ensures s.refs[r].blob in Apply(k, s, GcFinish(g)).rows
  {
    if !IsReferenced(s, s.gcs[g].blob) {
      DeletedRefsAreExpired(k, s, g);
    }
  }

  lemma RollbackSparesHeld(k: Codec, s: State, owner: Owner, r: nat)
    requires Inv(k, s) && Holding(s, r) && s.refs[r].owner != Some(owner)
    ensures s.refs[r].blob in RollbackOwner(s, owner).rows
  {
  }

  lemma StepSparesHeld(k: Codec, s: State, step: Step, r: nat)
    requires Inv(k, s) && Enabled(k, s, step) && Holding(s, r)
    ensures s.refs[r].blob in Apply(k, s, step).rows
         || (s.refs[r].owner.Some? && step == Rollback(s.refs[r].owner.value))
  {
    match step
    case GcFinish(g) => GcFinishSpares(k, s, g, r);
    case Rollback(owner) =>
      if s.refs[r].owner != Some(owner) {
        RollbackSparesHeld(k, s, owner, r);
      }
    case _ =>
  }

  /** No step removes a row that a live committed reference, or any uncommitted one,
      points at. */
  lemma ReferencedRowsStay(k: Codec, steps: seq<Step>, step: Step, r: nat)
    requires Lawful(k) && CanRun(k, INITIAL, steps)
    requires Enabled(k, Run(k, INITIAL, steps), step)
    requires Holding(Run(k, INITIAL, steps), r)
    ensures var s := Run(k, INITIAL, steps);
            var t := Apply(k, s, step);
            s.refs[r].blob in t.rows || (s.refs[r].owner.Some? && step == Rollback(s.refs[r].owner.value))
  {
    RunKeeps(k, INITIAL, steps);
    StepSparesHeld(k, Run(k, INITIAL, steps), step, r);
  }

  /** The collector does collect: from any state in which a committed row is not locked and
      nothing but expired reservations points at it, one undisturbed run removes it, and with
      it exactly those reservations.  This is also how a bare call, whose locks end with it,
      can lose its blob before anything references it. */
  lemma UnreferencedRowIsCollected(k: Codec, s: State, g: nat, b: nat)
    requires b in s.rows && s.rows[b].owner.None? && OnlyExpired(s, b)
    requires b !in s.rowLocks && k.lockKey(s.rows[b].sha) !in s.advisory && g !in s.gcs
    ensures var steps := [GcPick(g, b), GcTakeLock(g), GcTakeRow(g), GcFinish(g)];
            && CanRun(k, s, steps)
            && Run(k, s, steps).rows == s.rows - {b}
            && Run(k, s, steps).refs == map r | r in s.refs && s.refs[r].blob != b :: s.refs[r]
  {
    var s1 := Apply(k, s, GcPick(g, b));
    var s2 := Apply(k, s1, GcTakeLock(g));
    var s3 := Apply(k, s2, GcTakeRow(g));
    GcReachesRow(k, s, g, b);
    GcFinishDeletes(k, s3, g, b);
    RunFour(k, s, GcPick(g, b), GcTakeLock(g), GcTakeRow(g), GcFinish(g));
  }

  lemma GcFinishDeletes(k: Codec, s: State, g: nat, b: nat)
    requires g in s.gcs && s.gcs[g].GcHasRow? && s.gcs[g].blob == b && OnlyExpired(s, b)
    ensures Apply(k, s, GcFinish(g)).rows == s.rows - {b}
    ensures Apply(k, s, GcFinish(g)).refs == map r | r in s.refs && s.refs[r].blob != b :: s.refs[r]
  {
    assert !IsReferenced(s, b);
  }

  lemma GcReachesRow(k: Codec, s: State, g: nat, b: nat)
    requires b in s.rows && s.rows[b].owner.None? && OnlyExpired(s, b)
    requires b !in s.rowLocks && k.lockKey(s.rows[b].sha) !in s.advisory && g !in s.gcs
    ensures Enabled(k, s, GcPick(g, b))
    ensures var s1 := Apply(k, s, GcPick(g, b));
            Enabled(k, s1, GcTakeLock(g)) && var s2 := Apply(k, s1, GcTakeLock(g));
            Enabled(k, s2, GcTakeRow(g)) && var s3 := Apply(k, s2, GcTakeRow(g));
            && s3.gcs == s.gcs[g := GcHasRow(b, s.rows[b].sha)]
            && s3.refs == s.refs && s3.rows == s.rows && s3.now == s.now
  {
  }

  lemma RunFour(k: Codec, s: State, w: Step, x: Step, y: Step, z: Step)
    requires Enabled(k, s, w)
    requires var s1 := Apply(k, s, w);
             Enabled(k, s1, x) && var s2 := Apply(k, s1, x);
             Enabled(k, s2, y) && var s3 := Apply(k, s2, y);
             Enabled(k, s3, z)
    ensures CanRun(k, s, [w, x, y, z])
    ensures Run(k, s, [w, x, y, z]) == Apply(k, Apply(k, Apply(k, Apply(k, s, w), x), y), z)
  {
    var s1 := Apply(k, s, w);
    var s2 := Apply(k, s1, x);
    var s3 := Apply(k, s2, y);
    RunCons(k, s3, z, []);
    assert [z] + [] == [z];
    RunCons(k, s2, y, [z]);
    assert [y] + [z] == [y, z];
    RunCons(k, s1, x, [y, z]);
    assert [x] + [y, z] == [x, y, z];
    RunCons(k, s, w, [x, y, z]);
    assert [w] + [x, y, z] == [w, x, y, z];
  }

  lemma RunCons(k: Codec, s: State, step: Step, rest: seq<Step>)
    requires Enabled(k, s, step) && CanRun(k, Apply(k, s, step), rest)
    ensures CanRun(k, s, [step] + rest)
    ensures Run(k, s, [step] + rest) == Run(k, Apply(k, s, step), rest)
  {
    assert ([step] + rest)[0] == step && ([step] + rest)[1..] == rest;
  }
}
