/** What the blob store promises to those who refer to a blob, and to those who store one. */
module BlobRetention {
  import opened Wrappers
  import opened BlobStore
  import opened BlobSafety

  // ------------------------------------------------------------------
  // A reference keeps itself and its row
  // ------------------------------------------------------------------

  /** Both states have the reference, to the same blob and with the same expiry, and both
      have the row, with the same bytes. */
  ghost predicate StillThere(s: State, t: State, r: nat) {
    && r in s.refs && r in t.refs
    && t.refs[r].blob == s.refs[r].blob && t.refs[r].expires == s.refs[r].expires
    && (t.refs[r].owner == s.refs[r].owner || t.refs[r].owner == None)
    && var b := s.refs[r].blob;
       b in s.rows && b in t.rows && t.rows[b].(owner := None) == s.rows[b].(owner := None)
  }

  /** The reference is a message's, which has no expiry, or has not expired at `now`. */
  predicate Unexpired(ref: Ref, now: nat) {
    match ref.expires
    case None => true
    case Some(t) => now < t
  }

  lemma DeleteKeepsOthers(s: State, b: nat, g: nat, r: nat)
    requires r in s.refs && s.refs[r].blob in s.rows && s.refs[r].blob != b
    ensures StillThere(s, EndGc(DeleteBlob(s, b), g), r) && StillThere(s, EndGc(s, g), r)
  {
  }

  lemma FinishKeepsReference(k: Codec, s: State, g: nat, r: nat)
    requires Inv(k, s) && Enabled(k, s, GcFinish(g)) && r in s.refs && Unexpired(s.refs[r], s.now)
    ensures StillThere(s, Apply(k, s, GcFinish(g)), r)
  {
    assert s.refs[r].blob in s.rows;
    if IsReferenced(s, s.gcs[g].blob) {
      DeleteKeepsOthers(s, s.refs[r].blob + 1, g, r);
    } else {
      DeletedRefsAreExpired(k, s, g);
      DeleteKeepsOthers(s, s.gcs[g].blob, g, r);
    }
  }

  lemma RollbackKeepsReference(k: Codec, s: State, owner: Owner, r: nat)
    requires Inv(k, s) && r in s.refs && s.refs[r].owner != Some(owner)
    ensures StillThere(s, RollbackOwner(s, owner), r)
  {
  }

  lemma CommitKeepsReference(k: Codec, s: State, owner: Owner, r: nat)
    requires Inv(k, s) && r in s.refs
    ensures StillThere(s, CommitOwner(s, owner), r)
  {
  }

  /** A call changes no reference and no row there is. */
  lemma CallLeavesTables(k: Codec, s: State, step: Step)
    requires (forall b :: b in s.rows ==> b < s.nextBlob) && Enabled(k, s, step) && IsCallStep(step)
    ensures var t := Apply(k, s, step);
            t.refs == s.refs && forall b :: b in s.rows ==> b in t.rows && t.rows[b] == s.rows[b]
  {
    match step
    case Insert(c) =>
    case _ =>
  }

  /** Nor do the other steps that neither end a transaction nor a collector run. */
  lemma OthersLeaveTables(k: Codec, s: State, step: Step, r: nat)
    requires Enabled(k, s, step) && r in s.refs && step != DropRef(r)
    requires !IsCallStep(step) && !step.Commit? && !step.Rollback? && !step.GcFinish?
    ensures var t := Apply(k, s, step); r in t.refs && t.refs[r] == s.refs[r] && t.rows == s.rows
  {
  }

  lemma StepKeepsReference(k: Codec, s: State, step: Step, r: nat)
    requires Inv(k, s) && Enabled(k, s, step) && r in s.refs && Unexpired(s.refs[r], s.now)
    requires step != DropRef(r) && (s.refs[r].owner.Some? ==> step != Rollback(s.refs[r].owner.value))
    ensures StillThere(s, Apply(k, s, step), r)
  {
    if IsCallStep(step) {
      CallLeavesTables(k, s, step);
    } else if step.GcFinish? {
      FinishKeepsReference(k, s, step.run, r);
    } else if step.Commit? {
      CommitKeepsReference(k, s, step.owner, r);
    } else if step.Rollback? {
      RollbackKeepsReference(k, s, step.owner, r);
    } else {
      OthersLeaveTables(k, s, step, r);
    }
  }

  lemma TimeGoesOn(k: Codec, s: State, step: Step)
    requires Enabled(k, s, step)
    ensures s.now <= Apply(k, s, step).now
  {
  }

  lemma {:induction false} RunTimeGoesOn(k: Codec, s: State, steps: seq<Step>)
    requires CanRun(k, s, steps)
    ensures s.now <= Run(k, s, steps).now
    decreases |steps|
  {
    if steps != [] {
      TimeGoesOn(k, s, steps[0]);
      RunTimeGoesOn(k, Apply(k, s, steps[0]), steps[1..]);
    }
  }

  /** `steps` neither drop the reference nor roll back the transaction that made it. */
  predicate Spared(r: nat, owner: Option<Owner>, steps: seq<Step>) {
    forall i :: 0 <= i < |steps| ==> steps[i] != DropRef(r) && (owner.Some? ==> steps[i] != Rollback(owner.value))
  }

  lemma StillThereFurther(s: State, t: State, u: State, r: nat)
    requires StillThere(s, t, r) && StillThere(t, u, r)
    ensures StillThere(s, u, r)
  {
  }

  lemma {:induction false} RunKeepsReference(k: Codec, s: State, steps: seq<Step>, r: nat)
    requires Lawful(k) && Inv(k, s) && CanRun(k, s, steps) && r in s.refs
    requires Unexpired(s.refs[r], Run(k, s, steps).now) && Spared(r, s.refs[r].owner, steps)
    ensures StillThere(s, Run(k, s, steps), r)
    decreases |steps|
  {
    if steps == [] {
      assert s.refs[r].blob in s.rows;
    } else {
      var t := Apply(k, s, steps[0]);
      RunTimeGoesOn(k, s, steps);
      StepKeepsReference(k, s, steps[0], r);
      StepKeeps(k, s, steps[0]);
      RunKeepsReference(k, t, steps[1..], r);
      StillThereFurther(s, t, Run(k, t, steps[1..]), r);
    }
  }

  /** Over every run, however it goes on: a reference without an expiry, or one that has not
      expired by then, is still there, and so is its row with the bytes it had, unless that
      very reference was dropped or the transaction that made it rolled back.  In particular
      the collector never takes the blob of a message. */
  lemma ReferencesKeepTheirBlobs(k: Codec, before: seq<Step>, after: seq<Step>, r: nat)
    requires Lawful(k) && CanRun(k, INITIAL, before) && CanRun(k, Run(k, INITIAL, before), after)
    requires r in Run(k, INITIAL, before).refs
    requires Spared(r, Run(k, INITIAL, before).refs[r].owner, after)
    ensures var s := Run(k, INITIAL, before);
            var t := Run(k, s, after);
            && s.refs[r].blob in s.rows
            && (s.refs[r].expires == None || t.now < s.refs[r].expires.value ==>
                  && r in t.refs && t.refs[r].blob == s.refs[r].blob && t.refs[r].expires == s.refs[r].expires
                  && s.refs[r].blob in t.rows
                  && t.rows[s.refs[r].blob].(owner := None) == s.rows[s.refs[r].blob].(owner := None)
                  && forall verify :: GetContent(k, t.rows[s.refs[r].blob], verify)
                                   == GetContent(k, s.rows[s.refs[r].blob], verify))
  {
    RunKeeps(k, INITIAL, before);
    var s := Run(k, INITIAL, before);
    if Unexpired(s.refs[r], Run(k, s, after).now) {
      RunKeepsReference(k, s, after, r);
    }
  }

  // ------------------------------------------------------------------
  // Reading
  // ------------------------------------------------------------------

  /** A verified read of a row, whatever bytes it holds, gives the content it is filed under or
      an error; and no read of a compressed row gives more than the size recorded. */
  lemma VerifiedReadIsTheContent(k: Codec, row: Row, content: Bytes)
    requires Lawful(k) && row.sha == k.hash(content)
    ensures GetContent(k, row, true) in {None, Some(content)}
    ensures forall verify :: row.zstd && GetContent(k, row, verify).Some? ==>
              |GetContent(k, row, verify).value| <= row.size
  {
  }

  // ------------------------------------------------------------------
  // Storing goes through
  // ------------------------------------------------------------------

  /** The transaction has done nothing yet. */
  predicate Unused(s: State, owner: Owner) {
    && (forall c :: c in s.calls ==> s.calls[c].owner != owner)
    && (forall x :: x in s.advisory ==> s.advisory[x] != owner)
    && (forall b :: b in s.rowLocks ==> s.rowLocks[b] != owner)
    && (forall b :: b in s.rows ==> s.rows[b].owner != Some(owner))
    && (forall r :: r in s.refs ==> s.refs[r].owner != Some(owner))
  }

  /** No row has the content, nobody is about to insert it, and the names are free. */
  predicate CanStore(k: Codec, s: State, c: nat, owner: Owner, content: Bytes) {
    && content != [] && (owner.Outer? || owner == Inner(c)) && c !in s.calls && Unused(s, owner)
    && (forall b :: b in s.rows ==> s.rows[b].sha != k.hash(content))
    && k.lockKey(k.hash(content)) !in s.advisory
    && s.nextBlob !in s.rows && s.nextBlob !in s.rowLocks
  }

  /** `s` with the call at `pc`. */
  function At(s: State, c: nat, owner: Owner, content: Bytes, pc: Pc): State {
    s.(calls := s.calls[c := Call(owner, content, pc)])
  }

  lemma {:induction false} RunThrough(k: Codec, states: seq<State>, steps: seq<Step>)
    requires |states| == |steps| + 1
    requires forall i :: 0 <= i < |steps| ==>
               Enabled(k, states[i], steps[i]) && states[i + 1] == Apply(k, states[i], steps[i])
    ensures CanRun(k, states[0], steps) && Run(k, states[0], steps) == states[|steps|]
    decreases |steps|
  {
    if steps != [] {
      RunThrough(k, states[1..], steps[1..]);
    }
  }

  lemma {:induction false} RunConcat(k: Codec, s: State, a: seq<Step>, b: seq<Step>)
    requires CanRun(k, s, a) && CanRun(k, Run(k, s, a), b)
    ensures CanRun(k, s, a + b) && Run(k, s, a + b) == Run(k, Run(k, s, a), b)
    decreases |a|
  {
    if a == [] {
      assert a + b == b;
    } else {
      assert (a + b)[0] == a[0] && (a + b)[1..] == a[1..] + b;
      RunConcat(k, Apply(k, s, a[0]), a[1..], b);
    }
  }

  /** A call up to the point where it wants the lock. */
  lemma Prepares(k: Codec, s: State, c: nat, owner: Owner, content: Bytes, zstd: bool, keyId: nat)
    requires CanStore(k, s, c, owner, content)
    ensures var steps := [BeginCall(c, owner, content), LookupMiss(c), CompressAndEncrypt(c, zstd, keyId)];
            && CanRun(k, s, steps)
            && Run(k, s, steps) == At(s, c, owner, content, Encoded(Encode(k, content, zstd, keyId)))
  {
    var enc := Encode(k, content, zstd, keyId);
    var s1, s2 := At(s, c, owner, content, Start), At(s, c, owner, content, Missed);
    var s3 := At(s, c, owner, content, Encoded(enc));
    Moves(s, c, owner, content, Start, Missed);
    Moves(s, c, owner, content, Missed, Encoded(enc));
    RunThrough(k, [s, s1, s2, s3], [BeginCall(c, owner, content), LookupMiss(c), CompressAndEncrypt(c, zstd, keyId)]);
  }

  lemma Moves(s: State, c: nat, owner: Owner, content: Bytes, pc: Pc, pc': Pc)
    ensures SetPc(At(s, c, owner, content, pc), c, pc') == At(s, c, owner, content, pc')
  {
  }

  /** `s` with the lock of the content taken. */
  function WithLock(k: Codec, s: State, owner: Owner, content: Bytes): State {
    s.(advisory := s.advisory[k.lockKey(k.hash(content)) := owner])
  }

  /** `s` with the row inserted, before the transaction ends. */
  function Inserted(k: Codec, s: State, c: nat, owner: Owner, content: Bytes, enc: Encoding): State {
    At(WithLock(k, s, owner, content), c, owner, content, Got(s.nextBlob)).(
      rows := s.rows[s.nextBlob := NewRow(k, content, enc, owner)],
      nextBlob := s.nextBlob + 1)
  }

  lemma Inserts(k: Codec, s: State, c: nat, owner: Owner, content: Bytes, enc: Encoding)
    requires CanStore(k, s, c, owner, content)
    ensures var steps := [TakeLock(c), RecheckMiss(c), Insert(c)];
            && CanRun(k, At(s, c, owner, content, Encoded(enc)), steps)
            && Run(k, At(s, c, owner, content, Encoded(enc)), steps) == Inserted(k, s, c, owner, content, enc)
  {
    var held := WithLock(k, s, owner, content);
    var s3, s4 := At(s, c, owner, content, Encoded(enc)), At(held, c, owner, content, Locked(enc));
    var s5 := At(held, c, owner, content, Vacant(enc));
    Moves(s, c, owner, content, Encoded(enc), Locked(enc));
    Moves(held, c, owner, content, Locked(enc), Vacant(enc));
    InsertEnds(k, s, c, owner, content, enc);
    RunThrough(k, [s3, s4, s5, Inserted(k, s, c, owner, content, enc)], [TakeLock(c), RecheckMiss(c), Insert(c)]);
  }

  lemma InsertEnds(k: Codec, s: State, c: nat, owner: Owner, content: Bytes, enc: Encoding)
    ensures var s5 := At(WithLock(k, s, owner, content), c, owner, content, Vacant(enc));
            Enabled(k, s5, Insert(c)) && Apply(k, s5, Insert(c)) == Inserted(k, s, c, owner, content, enc)
  {
    Moves(WithLock(k, s, owner, content), c, owner, content, Vacant(enc), Got(s.nextBlob));
  }

  /** `create_blob` on new content, the write of a reference to the result, and the end of
      the transaction, undisturbed. */
  function Storing(
    s: State, c: nat, owner: Owner, content: Bytes, zstd: bool, keyId: nat, r: nat, expires: Option<nat>, end: Step)
    : seq<Step>
  {
    [BeginCall(c, owner, content), LookupMiss(c), CompressAndEncrypt(c, zstd, keyId)]
    + [TakeLock(c), RecheckMiss(c), Insert(c)]
    + [AddRef(r, s.nextBlob, expires, Some(owner)), end]
  }

  lemma StoringRuns(
    k: Codec, s: State, c: nat, owner: Owner, content: Bytes, zstd: bool, keyId: nat, r: nat,
    expires: Option<nat>, end: Step)
    requires CanStore(k, s, c, owner, content) && r !in s.refs && end in {Commit(owner), Rollback(owner)}
    ensures var i := Inserted(k, s, c, owner, content, Encode(k, content, zstd, keyId));
            var t := i.(refs := s.refs[r := Ref(s.nextBlob, expires, Some(owner))]);
            var steps := Storing(s, c, owner, content, zstd, keyId, r, expires, end);
            && CanRun(k, s, steps) && Enabled(k, t, end) && Run(k, s, steps) == Apply(k, t, end)
  {
    var enc := Encode(k, content, zstd, keyId);
    var i := Inserted(k, s, c, owner, content, enc);
    var t := i.(refs := s.refs[r := Ref(s.nextBlob, expires, Some(owner))]);
    Prepares(k, s, c, owner, content, zstd, keyId);
    Inserts(k, s, c, owner, content, enc);
    RunConcat(k, s, [BeginCall(c, owner, content), LookupMiss(c), CompressAndEncrypt(c, zstd, keyId)],
              [TakeLock(c), RecheckMiss(c), Insert(c)]);
    EndRuns(k, i, t, AddRef(r, s.nextBlob, expires, Some(owner)), end);
    RunConcat(k, s, [BeginCall(c, owner, content), LookupMiss(c), CompressAndEncrypt(c, zstd, keyId)]
                    + [TakeLock(c), RecheckMiss(c), Insert(c)],
              [AddRef(r, s.nextBlob, expires, Some(owner)), end]);
  }

  lemma EndRuns(k: Codec, s: State, t: State, x: Step, y: Step)
    requires Enabled(k, s, x) && t == Apply(k, s, x) && Enabled(k, t, y)
    ensures CanRun(k, s, [x, y]) && Run(k, s, [x, y]) == Apply(k, t, y)
  {
    RunThrough(k, [s, t, Apply(k, t, y)], [x, y]);
  }

  lemma CommitsRow(s: State, t: State, owner: Owner, b: nat, row: Row)
    requires Unused(s, owner) && b !in s.rows && row.owner == Some(owner) && t.rows == s.rows[b := row]
    ensures CommitOwner(t, owner).rows == s.rows[b := row.(owner := None)]
  {
  }

  lemma CommitsRef(s: State, t: State, owner: Owner, r: nat, ref: Ref)
    requires Unused(s, owner) && r !in s.refs && ref.owner == Some(owner) && t.refs == s.refs[r := ref]
    ensures CommitOwner(t, owner).refs == s.refs[r := ref.(owner := None)]
  {
  }

  lemma EndsCall(s: State, t: State, c: nat, call: Call)
    requires Unused(s, call.owner) && c !in s.calls && call.pc.Got? && t.calls == s.calls[c := call]
    ensures CommitOwner(t, call.owner).calls == s.calls[c := call.(pc := Done(call.pc.blob))]
    ensures RollbackOwner(t, call.owner).calls == s.calls[c := call.(pc := Failed)]
  {
  }

  lemma FreesLocks(s: State, t: State, owner: Owner, key: Bytes)
    requires Unused(s, owner) && key !in s.advisory
    requires t.advisory == s.advisory[key := owner] && t.rowLocks == s.rowLocks
    ensures Unlock(t, owner).advisory == s.advisory && Unlock(t, owner).rowLocks == s.rowLocks
  {
  }

  lemma UndoesRows(s: State, t: State, owner: Owner, b: nat, row: Row, r: nat, ref: Ref)
    requires Unused(s, owner) && b !in s.rows && r !in s.refs && row.owner == ref.owner == Some(owner)
    requires t.rows == s.rows[b := row] && t.refs == s.refs[r := ref]
    ensures RollbackOwner(t, owner).rows == s.rows && RollbackOwner(t, owner).refs == s.refs
  {
  }

  /** New content goes in: from any state without its row and with its lock free, the run can
      be taken to the end, and it adds one committed row, filed under the hash of the content
      and giving it back verified or not, and one committed reference, and nothing else. */
  lemma NewContentIsStored(
    k: Codec, s: State, c: nat, owner: Owner, content: Bytes, zstd: bool, keyId: nat, r: nat, expires: Option<nat>)
    requires Lawful(k) && CanStore(k, s, c, owner, content) && r !in s.refs
    ensures var steps := Storing(s, c, owner, content, zstd, keyId, r, expires, Commit(owner));
            CanRun(k, s, steps) &&
            var t, b := Run(k, s, steps), s.nextBlob;
            && t.rows.Keys == s.rows.Keys + {b} && (forall a :: a in s.rows ==> t.rows[a] == s.rows[a])
            && t.rows[b].owner == None && t.rows[b].sha == k.hash(content) && t.rows[b].size == |content|
            && (forall verify :: GetContent(k, t.rows[b], verify) == Some(content))
            && t.refs == s.refs[r := Ref(b, expires, None)]
            && t.calls == s.calls[c := Call(owner, content, Done(b))]
            && t.advisory == s.advisory && t.rowLocks == s.rowLocks
  {
    var enc, b := Encode(k, content, zstd, keyId), s.nextBlob;
    var t := Inserted(k, s, c, owner, content, enc).(refs := s.refs[r := Ref(b, expires, Some(owner))]);
    StoringRuns(k, s, c, owner, content, zstd, keyId, r, expires, Commit(owner));
    CommitsRow(s, t, owner, b, NewRow(k, content, enc, owner));
    CommitsRef(s, t, owner, r, Ref(b, expires, Some(owner)));
    EndsCall(s, t, c, Call(owner, content, Got(b)));
    FreesLocks(s, t, owner, k.lockKey(k.hash(content)));
    EncodeReads(k, content, zstd, keyId, owner);
  }

  lemma EncodeReads(k: Codec, content: Bytes, zstd: bool, keyId: nat, owner: Owner)
    requires Lawful(k)
    ensures var row := NewRow(k, content, Encode(k, content, zstd, keyId), owner).(owner := None);
            row.sha == k.hash(content) && forall verify :: GetContent(k, row, verify) == Some(content)
  {
  }

  /** A rolled-back store leaves no trace: rows, references and locks are what they were. */
  lemma RolledBackStoreLeavesNothing(
    k: Codec, s: State, c: nat, owner: Owner, content: Bytes, zstd: bool, keyId: nat, r: nat, expires: Option<nat>)
    requires CanStore(k, s, c, owner, content) && r !in s.refs
    ensures var steps := Storing(s, c, owner, content, zstd, keyId, r, expires, Rollback(owner));
            CanRun(k, s, steps) &&
            var t := Run(k, s, steps);
            && t.rows == s.rows && t.refs == s.refs && t.advisory == s.advisory && t.rowLocks == s.rowLocks
            && t.calls == s.calls[c := Call(owner, content, Failed)]
  {
    var enc, b := Encode(k, content, zstd, keyId), s.nextBlob;
    var t := Inserted(k, s, c, owner, content, enc).(refs := s.refs[r := Ref(b, expires, Some(owner))]);
    StoringRuns(k, s, c, owner, content, zstd, keyId, r, expires, Rollback(owner));
    UndoesRows(s, t, owner, b, NewRow(k, content, enc, owner), r, Ref(b, expires, Some(owner)));
    EndsCall(s, t, c, Call(owner, content, Got(b)));
    FreesLocks(s, t, owner, k.lockKey(k.hash(content)));
  }

  // ------------------------------------------------------------------
  // Content already there is shared
  // ------------------------------------------------------------------

  /** The committed row has the content, and nobody is at it. */
  predicate Shares(k: Codec, s: State, content: Bytes, b: nat) {
    && b in s.rows && s.rows[b].owner == None && s.rows[b].sha == k.hash(content)
    && b !in s.rowLocks && forall r :: r in s.refs && s.refs[r].blob == b ==> s.refs[r].owner == None
  }

  lemma CommitLeavesRows(s: State, t: State, owner: Owner)
    requires Unused(s, owner) && t.rows == s.rows
    ensures CommitOwner(t, owner).rows == s.rows
  {
  }

  lemma FreesRowLock(s: State, t: State, owner: Owner, b: nat)
    requires Unused(s, owner) && b !in s.rowLocks && t.advisory == s.advisory
    requires t.rowLocks in {s.rowLocks, s.rowLocks[b := owner]}
    ensures Unlock(t, owner).advisory == s.advisory && Unlock(t, owner).rowLocks == s.rowLocks
  {
  }

  /** `s` with the row found by the call, in a transaction of the caller's under a lock. */
  function Found(s: State, c: nat, owner: Owner, content: Bytes, b: nat): State {
    var t := At(s, c, owner, content, Got(b));
    if owner.Outer? then t.(rowLocks := s.rowLocks[b := owner]) else t
  }

  lemma Finds(k: Codec, s: State, c: nat, owner: Owner, content: Bytes, b: nat)
    requires content != [] && (owner.Outer? || owner == Inner(c)) && c !in s.calls && Unused(s, owner)
    requires Shares(k, s, content, b)
    ensures CanRun(k, s, [BeginCall(c, owner, content), LookupHit(c, b)])
    ensures Run(k, s, [BeginCall(c, owner, content), LookupHit(c, b)]) == Found(s, c, owner, content, b)
  {
    Moves(s, c, owner, content, Start, Got(b));
    RunThrough(k, [s, At(s, c, owner, content, Start), Found(s, c, owner, content, b)],
               [BeginCall(c, owner, content), LookupHit(c, b)]);
  }

  /** Stored content is found again: a call with the content of a committed row can be taken
      to the end with a reference of its own, and adds no row. */
  lemma StoredContentIsShared(
    k: Codec, s: State, c: nat, owner: Owner, content: Bytes, b: nat, r: nat, expires: Option<nat>)
    requires content != [] && (owner.Outer? || owner == Inner(c)) && c !in s.calls && Unused(s, owner)
    requires Shares(k, s, content, b) && r !in s.refs
    ensures var steps := [BeginCall(c, owner, content), LookupHit(c, b)]
                         + [AddRef(r, b, expires, Some(owner)), Commit(owner)];
            CanRun(k, s, steps) &&
            var t := Run(k, s, steps);
            && t.rows == s.rows && t.refs == s.refs[r := Ref(b, expires, None)]
            && t.calls == s.calls[c := Call(owner, content, Done(b))]
            && t.advisory == s.advisory && t.rowLocks == s.rowLocks
  {
    var f := Found(s, c, owner, content, b);
    var t := f.(refs := s.refs[r := Ref(b, expires, Some(owner))]);
    var ends := [AddRef(r, b, expires, Some(owner)), Commit(owner)];
    Finds(k, s, c, owner, content, b);
    EndRuns(k, f, t, AddRef(r, b, expires, Some(owner)), Commit(owner));
    RunConcat(k, s, [BeginCall(c, owner, content), LookupHit(c, b)], ends);
    CommitLeavesRows(s, t, owner);
    CommitsRef(s, t, owner, r, Ref(b, expires, Some(owner)));
    EndsCall(s, t, c, Call(owner, content, Got(b)));
    FreesRowLock(s, t, owner, b);
  }

  lemma TakesAndFinds(k: Codec, s: State, c: nat, owner: Owner, content: Bytes, enc: Encoding, b: nat)
    requires !owner.Gc? && Unused(s, owner) && Shares(k, s, content, b) && k.lockKey(k.hash(content)) !in s.advisory
    ensures var s3, f := At(s, c, owner, content, Encoded(enc)),
                         At(WithLock(k, s, owner, content), c, owner, content, Got(b));
            CanRun(k, s3, [TakeLock(c), RecheckHit(c, b)]) && Run(k, s3, [TakeLock(c), RecheckHit(c, b)]) == f
  {
    var held := WithLock(k, s, owner, content);
    Moves(s, c, owner, content, Encoded(enc), Locked(enc));
    Moves(held, c, owner, content, Locked(enc), Got(b));
    RunThrough(k, [At(s, c, owner, content, Encoded(enc)), At(held, c, owner, content, Locked(enc)),
                   At(held, c, owner, content, Got(b))],
               [TakeLock(c), RecheckHit(c, b)]);
  }

  /** A call that gets the lock after another one has committed the row. */
  lemma LateCallShares(
    k: Codec, s: State, c: nat, owner: Owner, content: Bytes, enc: Encoding, b: nat, r: nat, expires: Option<nat>)
    requires !owner.Gc? && c !in s.calls && Unused(s, owner) && Shares(k, s, content, b) && r !in s.refs
    requires k.lockKey(k.hash(content)) !in s.advisory
    ensures var steps := [TakeLock(c), RecheckHit(c, b)] + [AddRef(r, b, expires, Some(owner)), Commit(owner)];
            var s3 := At(s, c, owner, content, Encoded(enc));
            CanRun(k, s3, steps) &&
            var t := Run(k, s3, steps);
            && t.rows == s.rows && t.refs == s.refs[r := Ref(b, expires, None)]
            && t.calls == s.calls[c := Call(owner, content, Done(b))]
            && t.advisory == s.advisory && t.rowLocks == s.rowLocks
  {
    var held, s3 := WithLock(k, s, owner, content), At(s, c, owner, content, Encoded(enc));
    var f := At(held, c, owner, content, Got(b));
    var t := f.(refs := s.refs[r := Ref(b, expires, Some(owner))]);
    TakesAndFinds(k, s, c, owner, content, enc, b);
    EndRuns(k, f, t, AddRef(r, b, expires, Some(owner)), Commit(owner));
    RunConcat(k, s3, [TakeLock(c), RecheckHit(c, b)], [AddRef(r, b, expires, Some(owner)), Commit(owner)]);
    CommitLeavesRows(s, t, owner);
    CommitsRef(s, t, owner, r, Ref(b, expires, Some(owner)));
    EndsCall(s, t, c, Call(owner, content, Got(b)));
    FreesLocks(s, t, owner, k.lockKey(k.hash(content)));
  }

  /** `t` is `s` with one more committed row and one reference to it, the work of call `d`. */
  ghost predicate HasStored(k: Codec, s: State, t: State, d: nat, other: Owner, content: Bytes, q: nat) {
    var b := s.nextBlob;
    && t.rows.Keys == s.rows.Keys + {b} && (forall a :: a in s.rows ==> t.rows[a] == s.rows[a])
    && t.rows[b].owner == None && t.rows[b].sha == k.hash(content)
    && (forall verify :: GetContent(k, t.rows[b], verify) == Some(content))
    && t.refs == s.refs[q := Ref(b, None, None)]
    && t.calls == s.calls[d := Call(other, content, Done(b))]
    && t.advisory == s.advisory && t.rowLocks == s.rowLocks
  }

  /** One caller has looked, found nothing and compressed when the other goes all the way. */
  lemma Overtaken(
    k: Codec, s: State, c: nat, d: nat, owner: Owner, other: Owner, content: Bytes, enc: Encoding,
    zstd: bool, keyId: nat, q: nat)
    returns (u: State)
    requires Lawful(k) && CanStore(k, s, c, owner, content) && CanStore(k, s, d, other, content)
    requires c != d && owner != other && q !in s.refs
    ensures var s3 := At(s, c, owner, content, Encoded(enc));
            var steps := Storing(s, d, other, content, zstd, keyId, q, None, Commit(other));
            CanRun(k, s3, steps) && Run(k, s3, steps) == At(u, c, owner, content, Encoded(enc))
    ensures HasStored(k, s, u, d, other, content, q)
  {
    var s3 := At(s, c, owner, content, Encoded(enc));
    assert CanStore(k, s3, d, other, content);
    NewContentIsStored(k, s3, d, other, content, zstd, keyId, q, None);
    var u3 := Run(k, s3, Storing(s3, d, other, content, zstd, keyId, q, None, Commit(other)));
    WithoutThenAt(u3, c, owner, content, Encoded(enc));
    u := Without(u3, c);
    Swapped(s.calls, c, d, Call(owner, content, Encoded(enc)), Call(other, content, Done(s.nextBlob)));
  }

  lemma Swapped(calls: map<nat, Call>, c: nat, d: nat, x: Call, y: Call)
    requires c !in calls && c != d
    ensures calls[c := x][d := y] - {c} == calls[d := y]
  {
  }

  lemma StillUnused(k: Codec, s: State, t: State, owner: Owner, d: nat, other: Owner, content: Bytes, q: nat)
    requires HasStored(k, s, t, d, other, content, q) && Unused(s, owner) && owner != other
    ensures Unused(t, owner)
  {
  }

  lemma SharesStored(k: Codec, s: State, t: State, d: nat, other: Owner, content: Bytes, q: nat)
    requires HasStored(k, s, t, d, other, content, q) && RefsOk(s) && s.nextBlob !in s.rowLocks && s.nextBlob !in s.rows
    ensures Shares(k, t, content, s.nextBlob)
  {
  }

  /** Two callers race with the same new content: one has looked, found nothing and compressed
      when the other goes all the way through.  Both end with the same row, the only one of
      that content, and both references point at it. */
  lemma RacingCallsShareOneRow(
    k: Codec, s: State, c: nat, d: nat, owner: Owner, other: Owner, content: Bytes, zstd: bool, keyId: nat,
    zstd': bool, keyId': nat, r: nat, q: nat)
    requires Lawful(k) && RefsOk(s) && CanStore(k, s, c, owner, content) && CanStore(k, s, d, other, content)
    requires c != d && owner != other && r !in s.refs && q !in s.refs && r != q
    ensures var b := s.nextBlob;
            var steps := [BeginCall(c, owner, content), LookupMiss(c), CompressAndEncrypt(c, zstd, keyId)]
                         + Storing(s, d, other, content, zstd', keyId', q, None, Commit(other))
                         + ([TakeLock(c), RecheckHit(c, b)] + [AddRef(r, b, None, Some(owner)), Commit(owner)]);
            CanRun(k, s, steps) &&
            var t := Run(k, s, steps);
            && t.rows.Keys == s.rows.Keys + {b} && (forall a :: a in s.rows ==> t.rows[a] == s.rows[a])
            && t.rows[b].owner == None && (forall verify :: GetContent(k, t.rows[b], verify) == Some(content))
            && t.refs == s.refs[q := Ref(b, None, None)][r := Ref(b, None, None)]
            && t.calls == s.calls[d := Call(other, content, Done(b))][c := Call(owner, content, Done(b))]
            && t.advisory == s.advisory && t.rowLocks == s.rowLocks
  {
    var enc, b := Encode(k, content, zstd, keyId), s.nextBlob;
    var first := [BeginCall(c, owner, content), LookupMiss(c), CompressAndEncrypt(c, zstd, keyId)];
    var second := Storing(s, d, other, content, zstd', keyId', q, None, Commit(other));
    Prepares(k, s, c, owner, content, zstd, keyId);
    var u := Overtaken(k, s, c, d, owner, other, content, enc, zstd', keyId', q);
    RunConcat(k, s, first, second);
    StillUnused(k, s, u, owner, d, other, content, q);
    SharesStored(k, s, u, d, other, content, q);
    LateCallShares(k, u, c, owner, content, enc, b, r, None);
    RunConcat(k, s, first + second, [TakeLock(c), RecheckHit(c, b)] + [AddRef(r, b, None, Some(owner)), Commit(owner)]);
  }

  function Without(s: State, c: nat): State {
    s.(calls := s.calls - {c})
  }

  lemma WithoutThenAt(s: State, c: nat, owner: Owner, content: Bytes, pc: Pc)
    requires c in s.calls && s.calls[c] == Call(owner, content, pc)
    ensures At(Without(s, c), c, owner, content, pc) == s
  {
  }

  // ------------------------------------------------------------------
  // What nobody refers to any more goes
  // ------------------------------------------------------------------

  /** Once its only reference is dropped a blob nobody is at can be collected. */
  lemma DroppedBlobIsCollected(k: Codec, s: State, g: nat, b: nat, r: nat)
    requires b in s.rows && s.rows[b].owner == None && b !in s.rowLocks && g !in s.gcs
    requires k.lockKey(s.rows[b].sha) !in s.advisory
    requires r in s.refs && s.refs[r].owner == None && forall q :: q in s.refs && s.refs[q].blob == b ==> q == r
    ensures var steps := [DropRef(r)] + [GcPick(g, b), GcTakeLock(g), GcTakeRow(g), GcFinish(g)];
            && CanRun(k, s, steps) && Run(k, s, steps).rows == s.rows - {b}
            && (s.refs[r].blob == b ==> Run(k, s, steps).refs == s.refs - {r})
  {
    var t := Apply(k, s, DropRef(r));
    UnreferencedRowIsCollected(k, t, g, b);
    RunThrough(k, [s, t], [DropRef(r)]);
    RunConcat(k, s, [DropRef(r)], [GcPick(g, b), GcTakeLock(g), GcTakeRow(g), GcFinish(g)]);
    if s.refs[r].blob == b {
      assert (map q | q in t.refs && t.refs[q].blob != b :: t.refs[q]) == s.refs - {r};
    }
  }

  /** Time can always pass, and nothing else changes with it. */
  lemma {:induction false} TimePasses(k: Codec, s: State, n: nat)
    ensures var steps := seq(n, i requires 0 <= i < n => Tick);
            CanRun(k, s, steps) && Run(k, s, steps) == s.(now := s.now + n)
    decreases n
  {
    var steps := seq(n, i requires 0 <= i < n => Tick);
    if n > 0 {
      TimePasses(k, s.(now := s.now + 1), n - 1);
      assert steps[1..] == seq(n - 1, i requires 0 <= i < n - 1 => Tick);
    }
  }

  /** A run that finds its row gone, or still referred to, ends without touching any row. */
  lemma RunEndsEmptyHanded(k: Codec, s: State, g: nat, r: nat)
    requires g in s.gcs
    ensures s.gcs[g].GcLocked? && s.gcs[g].blob !in s.rows ==>
              && Enabled(k, s, GcTakeRow(g))
              && var t := Apply(k, s, GcTakeRow(g)); t.rows == s.rows && t.refs == s.refs && t.gcs == s.gcs - {g}
    ensures s.gcs[g].GcHasRow? && r in s.refs && s.refs[r].blob == s.gcs[g].blob && s.refs[r].owner == None
            && Unexpired(s.refs[r], s.now) ==>
              && Enabled(k, s, GcFinish(g))
              && var t := Apply(k, s, GcFinish(g)); t.rows == s.rows && t.refs == s.refs && t.gcs == s.gcs - {g}
  {
  }

  // ------------------------------------------------------------------
  // No lock is leaked
  // ------------------------------------------------------------------

  /** A collector run under way, or a transaction with a call that has not ended. */
  ghost predicate UnderWay(s: State, owner: Owner) {
    match owner
    case Gc(g) => g in s.gcs
    case _ => exists c :: c in s.calls && s.calls[c].owner == owner && !s.calls[c].pc.Done? && !s.calls[c].pc.Failed?
  }

  ghost predicate LocksAreHeld(s: State) {
    && (forall x :: x in s.advisory ==> UnderWay(s, s.advisory[x]))
    && (forall b :: b in s.rowLocks ==> UnderWay(s, s.rowLocks[b]))
  }

  /** A step of a call that keeps it under way. */
  lemma CallStaysUnderWay(s: State, t: State, c: nat, owner: Owner)
    requires UnderWay(s, owner) && t.gcs == s.gcs && s.calls.Keys <= t.calls.Keys
    requires forall d :: d in s.calls && d != c ==> t.calls[d] == s.calls[d]
    requires c in s.calls ==> t.calls[c].owner == s.calls[c].owner && !t.calls[c].pc.Done? && !t.calls[c].pc.Failed?
    ensures UnderWay(t, owner)
  {
    if !owner.Gc? {
      var d :| d in s.calls && s.calls[d].owner == owner && !s.calls[d].pc.Done? && !s.calls[d].pc.Failed?;
      assert d in t.calls && t.calls[d].owner == owner;
    }
  }

  /** The call that moves keeps its locks and those of others, and may take one of each kind. */
  lemma CallTakesLocks(s: State, t: State, c: nat, key: Bytes, blob: nat)
    requires LocksAreHeld(s) && t.gcs == s.gcs && s.calls.Keys <= t.calls.Keys
    requires forall d :: d in s.calls && d != c ==> t.calls[d] == s.calls[d]
    requires c in t.calls && !t.calls[c].owner.Gc? && !t.calls[c].pc.Done? && !t.calls[c].pc.Failed?
    requires c in s.calls ==> t.calls[c].owner == s.calls[c].owner
    requires t.advisory in {s.advisory, s.advisory[key := t.calls[c].owner]}
    requires t.rowLocks in {s.rowLocks, s.rowLocks[blob := t.calls[c].owner]}
    ensures LocksAreHeld(t)
  {
    assert UnderWay(t, t.calls[c].owner);
    forall x | x in t.advisory && x in s.advisory && t.advisory[x] == s.advisory[x] ensures UnderWay(t, t.advisory[x]) {
      CallStaysUnderWay(s, t, c, s.advisory[x]);
    }
    forall b | b in t.rowLocks && b in s.rowLocks && t.rowLocks[b] == s.rowLocks[b] ensures UnderWay(t, t.rowLocks[b]) {
      CallStaysUnderWay(s, t, c, s.rowLocks[b]);
    }
  }

  lemma CallMoves(k: Codec, s: State, step: Step)
    requires Enabled(k, s, step) && IsCallStep(step)
    ensures var t := Apply(k, s, step);
            && step.call in t.calls && t.calls.Keys == s.calls.Keys + {step.call} && t.gcs == s.gcs
            && (step.call in s.calls ==> t.calls[step.call].owner == s.calls[step.call].owner)
            && (step.call !in s.calls ==> !t.calls[step.call].owner.Gc?)
            && !t.calls[step.call].pc.Done? && !t.calls[step.call].pc.Failed?
            && forall d :: d in s.calls && d != step.call ==> t.calls[d] == s.calls[d]
  {
  }

  lemma CallStepHoldsLocks(k: Codec, s: State, step: Step)
    requires CallsOk(k, s) && LocksAreHeld(s) && Enabled(k, s, step) && IsCallStep(step)
    ensures LocksAreHeld(Apply(k, s, step))
  {
    var c, t := step.call, Apply(k, s, step);
    assert c in s.calls ==> CallOk(k, s, s.calls[c]);
    var key := if step.TakeLock? then k.lockKey(k.hash(s.calls[c].content)) else [];
    CallMoves(k, s, step);
    CallTakesLocks(s, t, c, key, if step.LookupHit? then step.blob else 0);
  }

  lemma EndHoldsLocks(k: Codec, s: State, owner: Owner, commit: bool)
    requires LocksAreHeld(s) && !owner.Gc?
    ensures LocksAreHeld(if commit then CommitOwner(s, owner) else RollbackOwner(s, owner))
  {
    var t := if commit then CommitOwner(s, owner) else RollbackOwner(s, owner);
    forall other | other != owner && UnderWay(s, other) ensures UnderWay(t, other) {
      if !other.Gc? {
        var c :| c in s.calls && s.calls[c].owner == other && !s.calls[c].pc.Done? && !s.calls[c].pc.Failed?;
        assert c in t.calls && t.calls[c] == s.calls[c];
      }
    }
  }

  lemma SameCallsUnderWay(s: State, t: State, owner: Owner)
    requires UnderWay(s, owner) && t.calls == s.calls && (owner.Gc? ==> owner.run in t.gcs)
    ensures UnderWay(t, owner)
  {
  }

  /** Every lock in `locks` was held in `before`, or is that of a run under way. */
  ghost predicate FromRuns<K(!new)>(before: map<K, Owner>, locks: map<K, Owner>, gcs: map<nat, GcPc>) {
    && (forall x :: x in locks ==> (x in before && locks[x] == before[x]) || locks[x].Gc?)
    && (forall x :: x in locks && locks[x].Gc? ==> locks[x].run in gcs)
  }

  /** A step that leaves the calls alone. */
  lemma OtherStepHoldsLocks(s: State, t: State)
    requires LocksAreHeld(s) && t.calls == s.calls
    requires FromRuns(s.advisory, t.advisory, t.gcs) && FromRuns(s.rowLocks, t.rowLocks, t.gcs)
    ensures LocksAreHeld(t)
  {
    forall x | x in t.advisory ensures UnderWay(t, t.advisory[x]) {
      if !t.advisory[x].Gc? {
        SameCallsUnderWay(s, t, t.advisory[x]);
      }
    }
    forall b | b in t.rowLocks ensures UnderWay(t, t.rowLocks[b]) {
      if !t.rowLocks[b].Gc? {
        SameCallsUnderWay(s, t, t.rowLocks[b]);
      }
    }
  }

  lemma EndGcHoldsLocks(s: State, t: State, g: nat)
    requires LocksAreHeld(s) && t.calls == s.calls && t.gcs == s.gcs
    requires t.advisory == s.advisory && t.rowLocks == s.rowLocks
    ensures LocksAreHeld(EndGc(t, g))
  {
    var e := EndGc(t, g);
    assert FromRuns(s.advisory, e.advisory, e.gcs) && FromRuns(s.rowLocks, e.rowLocks, e.gcs);
    OtherStepHoldsLocks(s, e);
  }

  /** A run that goes on takes a lock of either kind, or none. */
  lemma RunTakesLocks(s: State, t: State, g: nat, key: Bytes, blob: nat)
    requires LocksAreHeld(s) && t.calls == s.calls && s.gcs.Keys <= t.gcs.Keys && g in t.gcs
    requires t.advisory in {s.advisory, s.advisory[key := Gc(g)]}
    requires t.rowLocks in {s.rowLocks, s.rowLocks[blob := Gc(g)]}
    ensures LocksAreHeld(t)
  {
    assert FromRuns(s.advisory, t.advisory, t.gcs) && FromRuns(s.rowLocks, t.rowLocks, t.gcs);
    OtherStepHoldsLocks(s, t);
  }

  lemma GcStepHoldsLocks(k: Codec, s: State, step: Step)
    requires LocksAreHeld(s) && Enabled(k, s, step) && IsGcStep(step)
    ensures LocksAreHeld(Apply(k, s, step))
  {
    match step
    case GcPick(g, b) => RunTakesLocks(s, Apply(k, s, step), g, [], b);
    case GcTakeLock(g) => RunTakesLocks(s, Apply(k, s, step), g, k.lockKey(s.gcs[g].sha), 0);
    case GcTakeRow(g) =>
      if s.gcs[g].blob in s.rows && s.rows[s.gcs[g].blob].owner.None? {
        RunTakesLocks(s, Apply(k, s, step), g, [], s.gcs[g].blob);
      } else {
        EndGcHoldsLocks(s, s, g);
      }
    case GcFinish(g) =>
      EndGcHoldsLocks(s, s, g);
      EndGcHoldsLocks(s, DeleteBlob(s, s.gcs[g].blob), g);
  }

  lemma StepHoldsLocks(k: Codec, s: State, step: Step)
    requires CallsOk(k, s) && LocksAreHeld(s) && Enabled(k, s, step)
    ensures LocksAreHeld(Apply(k, s, step))
  {
    if IsCallStep(step) {
      CallStepHoldsLocks(k, s, step);
    } else if IsGcStep(step) {
      GcStepHoldsLocks(k, s, step);
    } else if step.Commit? {
      EndHoldsLocks(k, s, step.owner, true);
    } else if step.Rollback? {
      EndHoldsLocks(k, s, step.owner, false);
    } else {
      OtherStepHoldsLocks(s, Apply(k, s, step));
    }
  }

  lemma {:induction false} RunHoldsLocks(k: Codec, s: State, steps: seq<Step>)
    requires Lawful(k) && Inv(k, s) && LocksAreHeld(s) && CanRun(k, s, steps)
    ensures LocksAreHeld(Run(k, s, steps))
    decreases |steps|
  {
    if steps != [] {
      StepHoldsLocks(k, s, steps[0]);
      StepKeeps(k, s, steps[0]);
      RunHoldsLocks(k, Apply(k, s, steps[0]), steps[1..]);
    }
  }

  /** Over every run, a lock is held only by a collector run under way or by a transaction
      with a call that has neither returned nor failed. */
  lemma NoLockIsLeaked(k: Codec, steps: seq<Step>)
    requires Lawful(k) && CanRun(k, INITIAL, steps)
    ensures LocksAreHeld(Run(k, INITIAL, steps))
  {
    RunHoldsLocks(k, INITIAL, steps);
  }
}
