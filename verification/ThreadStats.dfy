/** The denormalised fields of a thread, its snippet cache and its read state. */
module ThreadStats {
  import opened Wrappers

  /** A message row.  `preview` is what deriving a snippet from its content gives, which
      is "" when the content cannot be read. */
  datatype Message = Message(id: nat, created: nat, trashed: bool, draft: bool, preview: string)

  predicate Visible(m: Message) {
    !m.draft && !m.trashed
  }

  /** Order of the query that feeds the update: by time, then by id. */
  predicate Before(a: Message, b: Message) {
    a.created < b.created || (a.created == b.created && a.id < b.id)
  }

  /** The rows of one thread in query order, each id once. */
  predicate Table(ms: seq<Message>) {
    && (forall i, j :: 0 <= i < j < |ms| ==> Before(ms[i], ms[j]))
    && (forall i, j :: 0 <= i < j < |ms| ==> ms[i].id != ms[j].id)
  }

  function VisibleOnes(ms: seq<Message>): seq<Message> {
    if ms == [] then []
    else (if Visible(ms[0]) then [ms[0]] else []) + VisibleOnes(ms[1..])
  }

  function LastVisible(ms: seq<Message>): Option<Message> {
    var v := VisibleOnes(ms);
    if v == [] then None else Some(v[|v| - 1])
  }

  /** The last visible row is the latest one, ids breaking ties. */
  lemma {:induction false} LastVisibleIsLatest(ms: seq<Message>)
    requires Table(ms)
    ensures LastVisible(ms).None? <==> forall m :: m in ms ==> !Visible(m)
    ensures LastVisible(ms).Some? ==>
              var last := LastVisible(ms).value;
              last in ms && Visible(last) && forall m :: m in ms && Visible(m) ==> m == last || Before(m, last)
  {
    if ms != [] {
      LastVisibleIsLatest(ms[1..]);
      assert ms == [ms[0]] + ms[1..];
      var rest := VisibleOnes(ms[1..]);
      if rest != [] {
        assert VisibleOnes(ms)[|VisibleOnes(ms)| - 1] == rest[|rest| - 1];
        assert LastVisible(ms) == LastVisible(ms[1..]);
      } else if Visible(ms[0]) {
        assert VisibleOnes(ms) == [ms[0]];
      }
    }
  }

  // ------------------------------------------------------------------
  // The update
  // ------------------------------------------------------------------

  datatype Stats = Stats(
    hasTrashed: bool,
    isTrashed: bool,
    messagedAt: Option<nat>,
    trashedAt: Option<nat>,
    snippet: string)

  const NEW_THREAD := Stats(false, false, None, None, "")

  /** What the caller already holds: the message it just changed, the snippet of its own
      copy of that message, and that of the email it parsed, if any. */
  datatype Hint = NoHint | Source(id: nat, own: string, parsed: Option<string>)

  function DeriveSnippet(m: Message, hint: Hint): string {
    if hint.Source? && hint.id == m.id then
      if hint.parsed.Some? then hint.parsed.value else hint.own
    else m.preview
  }

  function CreatedAt(m: Option<Message>): Option<nat> {
    if m.Some? then Some(m.value.created) else None
  }

  /** The latest creation time among the trashed rows. */
  function LastTrashed(ms: seq<Message>): Option<nat> {
    if ms == [] then None
    else
      var rest := LastTrashed(ms[1..]);
      if !ms[0].trashed then rest
      else if rest.Some? && rest.value > ms[0].created then rest
      else Some(ms[0].created)
  }

  function Refresh(ms: seq<Message>, st: Stats, hint: Hint, force: bool): Stats {
    if ms == [] then NEW_THREAD
    else
      var last := LastVisible(ms);
      Stats(
        exists m :: m in ms && m.trashed,
        forall m :: m in ms ==> m.trashed,
        CreatedAt(last),
        LastTrashed(ms),
        if last.Some? && (force || CreatedAt(last) != st.messagedAt) then DeriveSnippet(last.value, hint)
        else st.snippet)
  }

  /** The other fields describe the table: a fully trashed thread has no visible message
      and some trashed one, and the trashed time is that of the latest trashed row. */
  lemma {:induction false} LastTrashedIsLatest(ms: seq<Message>)
    ensures LastTrashed(ms).None? <==> forall m :: m in ms ==> !m.trashed
    ensures LastTrashed(ms).Some? ==>
              && (exists m :: m in ms && m.trashed && m.created == LastTrashed(ms).value)
              && forall m :: m in ms && m.trashed ==> m.created <= LastTrashed(ms).value
  {
    if ms != [] {
      LastTrashedIsLatest(ms[1..]);
      assert ms == [ms[0]] + ms[1..];
      if LastTrashed(ms) == Some(ms[0].created) {
        assert ms[0] in ms;
      } else if LastTrashed(ms).Some? {
        var m :| m in ms[1..] && m.trashed && m.created == LastTrashed(ms[1..]).value;
        assert m in ms;
      }
    }
  }

  lemma FullyTrashedHasNoDate(ms: seq<Message>, st: Stats, hint: Hint, force: bool)
    requires Table(ms)
    ensures var r := Refresh(ms, st, hint, force);
            && (r.isTrashed ==> r.messagedAt.None? && r.trashedAt.Some? && r.hasTrashed)
            && (r.hasTrashed <==> r.trashedAt.Some?)
            && (r.messagedAt.None? <==> forall m :: m in ms ==> !Visible(m))
  {
    LastVisibleIsLatest(ms);
    LastTrashedIsLatest(ms);
    if ms != [] {
      assert ms[0] in ms;
    }
  }

  class Thread {
    var hasTrashed: bool
    var isTrashed: bool
    var messagedAt: Option<nat>
    var trashedAt: Option<nat>
    var snippet: string

    constructor ()
      ensures Fields() == NEW_THREAD
    {
      hasTrashed, isTrashed, messagedAt, trashedAt, snippet := false, false, None, None, "";
    }

    function Fields(): Stats
      reads this
    {
      Stats(hasTrashed, isTrashed, messagedAt, trashedAt, snippet)
    }

    method UpdateStats(messageData: seq<Message>, hint: Hint, forceSnippet: bool)
      modifies this
      ensures Fields() == Refresh(messageData, old(Fields()), hint, forceSnippet)
    {
      if messageData == [] {
        hasTrashed, isTrashed := false, false;
        messagedAt, trashedAt := None, None;
        snippet := "";
        return;
      }
      hasTrashed := exists m :: m in messageData && m.trashed;
      isTrashed := forall m :: m in messageData ==> m.trashed;
      var lastVisible := LastVisible(messageData);
      var newMessagedAt := CreatedAt(lastVisible);
      if lastVisible.Some? && (forceSnippet || newMessagedAt != messagedAt) {
        snippet := DeriveSnippet(lastVisible.value, hint);
      }
      messagedAt := newMessagedAt;
      trashedAt := LastTrashed(messageData);
    }
  }

  /** A hint that tells the truth about the row it names. */
  predicate Faithful(hint: Hint, ms: seq<Message>) {
    hint.Source? ==>
      forall m :: m in ms && m.id == hint.id ==>
        hint.own == m.preview && (hint.parsed.Some? ==> hint.parsed.value == m.preview)
  }

  /** Faithful hints save work and change nothing. */
  lemma HintsDoNotMatter(ms: seq<Message>, st: Stats, hint: Hint, force: bool)
    requires Table(ms) && Faithful(hint, ms)
    ensures Refresh(ms, st, hint, force) == Refresh(ms, st, NoHint, force)
  {
    LastVisibleIsLatest(ms);
  }

  // ------------------------------------------------------------------
  // When the snippet is right
  // ------------------------------------------------------------------

  /** The cached time is that of the last visible row, and the cached snippet its own. */
  ghost predicate Fresh(ms: seq<Message>, st: Stats) {
    && st.messagedAt == CreatedAt(LastVisible(ms))
    && (LastVisible(ms).Some? ==> st.snippet == LastVisible(ms).value.preview)
  }

  /** The timestamp cannot tell the last visible row after the change from the one
      before it. */
  predicate Ambiguous(before: seq<Message>, after: seq<Message>) {
    && LastVisible(before).Some? && LastVisible(after).Some?
    && LastVisible(before).value.created == LastVisible(after).value.created
    && LastVisible(before).value.preview != LastVisible(after).value.preview
  }

  /** One change followed by one update keeps the snippet right if and only if the update
      is forced or the change is not one the timestamp is blind to. */
  lemma UpdateIsRightUnlessAmbiguous(before: seq<Message>, after: seq<Message>, st: Stats, hint: Hint, force: bool)
    requires Table(after) && Fresh(before, st) && Faithful(hint, after)
    ensures Fresh(after, Refresh(after, st, hint, force)) <==> force || !Ambiguous(before, after)
  {
    LastVisibleIsLatest(after);
    HintsDoNotMatter(after, st, hint, force);
  }

  /** A thread with nothing visible left keeps the snippet it had (an emptied thread
      loses it), and whatever it is restored to next is derived anew. */
  lemma TrashKeepsAndRestoreDerives(
    trashed: seq<Message>, restored: seq<Message>, st: Stats, hint: Hint, force: bool, hint': Hint, force': bool)
    requires Table(trashed) && Table(restored) && Faithful(hint', restored)
    requires trashed != [] && LastVisible(trashed).None?
    ensures var kept := Refresh(trashed, st, hint, force);
            && kept.snippet == st.snippet
            && Fresh(restored, Refresh(restored, kept, hint', force'))
  {
    LastVisibleIsLatest(restored);
    HintsDoNotMatter(restored, Refresh(trashed, st, hint, force), hint', force');
  }

  // ------------------------------------------------------------------
  // Whole runs
  // ------------------------------------------------------------------

  /** A change of the message table: a new row, an edit of one row (new flags, a new creation
      time, as sending a draft or importing gives it, new content), or rows leaving by hard
      delete or split. */
  datatype Change =
    | Insert(m: Message)
    | Edit(id: nat, created: nat, trashed: bool, draft: bool, preview: string)
    | Remove(ids: set<nat>)

  function InsertInOrder(ms: seq<Message>, m: Message): seq<Message> {
    if ms == [] || Before(m, ms[0]) then [m] + ms else [ms[0]] + InsertInOrder(ms[1..], m)
  }

  function Find(ms: seq<Message>, id: nat): (r: Option<Message>)
    ensures r.Some? ==> r.value in ms && r.value.id == id
    ensures r.None? ==> forall m :: m in ms ==> m.id != id
  {
    if ms == [] then None else if ms[0].id == id then Some(ms[0]) else Find(ms[1..], id)
  }

  function RemoveRows(ms: seq<Message>, ids: set<nat>): seq<Message> {
    if ms == [] then []
    else (if ms[0].id in ids then [] else [ms[0]]) + RemoveRows(ms[1..], ids)
  }

  /** The row as edited, back at its place in query order. */
  function EditRow(ms: seq<Message>, row: Message): seq<Message> {
    if Find(ms, row.id).Some? then InsertInOrder(RemoveRows(ms, {row.id}), row) else ms
  }

  function Changed(ms: seq<Message>, c: Change): seq<Message> {
    match c
    case Insert(m) => InsertInOrder(ms, m)
    case Edit(id, created, trashed, draft, preview) => EditRow(ms, Message(id, created, trashed, draft, preview))
    case Remove(ids) => RemoveRows(ms, ids)
  }

  /** Ids are never reused within a thread, and a row visible before and after an edit keeps
      its content. */
  predicate Allowed(ms: seq<Message>, c: Change) {
    match c
    case Insert(m) => Find(ms, m.id).None?
    case Edit(id, _, trashed, draft, preview) =>
      var was := Find(ms, id);
      was.Some? && Visible(was.value) && !trashed && !draft ==> preview == was.value.preview
    case Remove(_) => true
  }

  lemma {:induction false} InsertKeepsTable(ms: seq<Message>, m: Message)
    requires Table(ms) && forall x :: x in ms ==> x.id != m.id
    ensures Table(InsertInOrder(ms, m))
    ensures forall x :: x in InsertInOrder(ms, m) <==> x in ms || x == m
  {
    if ms == [] || Before(m, ms[0]) {
      assert InsertInOrder(ms, m) == [m] + ms;
    } else {
      InsertKeepsTable(ms[1..], m);
      var rest := InsertInOrder(ms[1..], m);
      assert ms == [ms[0]] + ms[1..];
      forall j | 0 <= j < |rest| ensures Before(ms[0], rest[j]) && ms[0].id != rest[j].id {
        assert rest[j] in ms[1..] || rest[j] == m;
      }
    }
  }

  lemma {:induction false} RemoveKeepsTable(ms: seq<Message>, ids: set<nat>)
    requires Table(ms)
    ensures Table(RemoveRows(ms, ids))
    ensures forall x :: x in RemoveRows(ms, ids) <==> x in ms && x.id !in ids
  {
    if ms != [] {
      RemoveKeepsTable(ms[1..], ids);
      var rest := RemoveRows(ms[1..], ids);
      assert ms == [ms[0]] + ms[1..];
      forall j | 0 <= j < |rest| ensures Before(ms[0], rest[j]) && ms[0].id != rest[j].id {
        assert rest[j] in ms[1..];
      }
    }
  }

  lemma EditKeepsTable(ms: seq<Message>, row: Message)
    requires Table(ms)
    ensures Table(EditRow(ms, row))
    ensures forall x :: x in EditRow(ms, row) <==>
              (x in ms && x.id != row.id) || (x == row && Find(ms, row.id).Some?)
  {
    RemoveKeepsTable(ms, {row.id});
    InsertKeepsTable(RemoveRows(ms, {row.id}), row);
  }

  lemma ChangeKeepsTable(ms: seq<Message>, c: Change)
    requires Table(ms) && Allowed(ms, c)
    ensures Table(Changed(ms, c))
  {
    match c
    case Insert(m) => InsertKeepsTable(ms, m);
    case Remove(ids) => RemoveKeepsTable(ms, ids);
    case Edit(id, created, trashed, draft, preview) =>
      EditKeepsTable(ms, Message(id, created, trashed, draft, preview));
  }

  lemma SameIdSameRow(ms: seq<Message>, a: Message, b: Message)
    requires Table(ms) && a in ms && b in ms && a.id == b.id
    ensures a == b
  {
  }

  /** A row visible before and after an allowed change has the same content. */
  lemma VisibleContentIsStable(ms: seq<Message>, c: Change, a: Message, b: Message)
    requires Table(ms) && Allowed(ms, c)
    requires a in ms && b in Changed(ms, c) && a.id == b.id && Visible(a) && Visible(b)
    ensures a.preview == b.preview
  {
    match c
    case Insert(m) =>
      InsertKeepsTable(ms, m);
      SameIdSameRow(InsertInOrder(ms, m), a, b);
    case Remove(ids) =>
      RemoveKeepsTable(ms, ids);
      SameIdSameRow(ms, a, b);
    case Edit(id, created, trashed, draft, preview) =>
      EditKeepsTable(ms, Message(id, created, trashed, draft, preview));
      if a.id == id {
        SameIdSameRow(ms, a, Find(ms, id).value);
      } else {
        SameIdSameRow(ms, a, b);
      }
  }

  /** No two different messages visible before or after the change share a timestamp. */
  predicate DistinctTimes(before: seq<Message>, after: seq<Message>) {
    forall a, b :: a in before && b in after && Visible(a) && Visible(b) && a.created == b.created ==> a.id == b.id
  }

  lemma DistinctTimesAreUnambiguous(ms: seq<Message>, c: Change)
    requires Table(ms) && Allowed(ms, c) && DistinctTimes(ms, Changed(ms, c))
    ensures !Ambiguous(ms, Changed(ms, c))
  {
    var after := Changed(ms, c);
    ChangeKeepsTable(ms, c);
    LastVisibleIsLatest(ms);
    LastVisibleIsLatest(after);
    if LastVisible(ms).Some? && LastVisible(after).Some?
       && LastVisible(ms).value.created == LastVisible(after).value.created {
      VisibleContentIsStable(ms, c, LastVisible(ms).value, LastVisible(after).value);
    }
  }

  /** A visible row later than every other visible one is the last visible row. */
  lemma LatestIsLastVisible(ms: seq<Message>, row: Message)
    requires Table(ms) && row in ms && Visible(row)
    requires forall m :: m in ms && Visible(m) && m != row ==> m.created < row.created
    ensures LastVisible(ms) == Some(row)
  {
    LastVisibleIsLatest(ms);
    var last := LastVisible(ms).value;
    assert last == row || Before(row, last);
  }

  /** Sending a draft clears its flag and stamps it anew in one save: if that makes it later
      than every visible row, the update surfaces it, unforced. */
  lemma SentDraftIsSurfaced(ms: seq<Message>, st: Stats, id: nat, created: nat, preview: string, hint: Hint)
    requires Table(ms) && Find(ms, id).Some? && Find(ms, id).value.draft
    requires st.messagedAt == CreatedAt(LastVisible(ms))
    requires forall m :: m in ms && Visible(m) ==> m.created < created
    requires Faithful(hint, Changed(ms, Edit(id, created, false, false, preview)))
    ensures var r := Refresh(Changed(ms, Edit(id, created, false, false, preview)), st, hint, false);
            r.messagedAt == Some(created) && r.snippet == preview
  {
    var row := Message(id, created, false, false, preview);
    SentDraftIsLast(ms, row);
    LastVisibleIsLatest(ms);
    NewDateIsSurfaced(EditRow(ms, row), st, row, hint);
  }

  /** An update derives the snippet of the last visible row when its date is new. */
  lemma NewDateIsSurfaced(ms: seq<Message>, st: Stats, row: Message, hint: Hint)
    requires Table(ms) && LastVisible(ms) == Some(row) && Faithful(hint, ms)
    requires st.messagedAt != Some(row.created)
    ensures var r := Refresh(ms, st, hint, false); r.messagedAt == Some(row.created) && r.snippet == row.preview
  {
    HintsDoNotMatter(ms, st, hint, false);
  }

  lemma SentDraftIsLast(ms: seq<Message>, row: Message)
    requires Table(ms) && Find(ms, row.id).Some? && Visible(row)
    requires forall m :: m in ms && Visible(m) ==> m.created < row.created
    ensures Table(EditRow(ms, row)) && LastVisible(EditRow(ms, row)) == Some(row)
  {
    EditKeepsTable(ms, row);
    LatestIsLastVisible(EditRow(ms, row), row);
  }

  /** A change and the update that follows it. */
  datatype Step = Step(change: Change, hint: Hint, force: bool)

  datatype State = State(messages: seq<Message>, stats: Stats)

  const EMPTY := State([], NEW_THREAD)

  function Next(s: State, step: Step): State {
    var ms := Changed(s.messages, step.change);
    State(ms, Refresh(ms, s.stats, step.hint, step.force))
  }

  function Run(s: State, steps: seq<Step>): State
    decreases |steps|
  {
    if steps == [] then s else Run(Next(s, steps[0]), steps[1..])
  }

  /** Every change is allowed and every hint faithful. */
  predicate Proper(s: State, steps: seq<Step>)
    decreases |steps|
  {
    steps != [] ==>
      && Allowed(s.messages, steps[0].change)
      && Faithful(steps[0].hint, Changed(s.messages, steps[0].change))
      && Proper(Next(s, steps[0]), steps[1..])
  }

  /** The snippet is the one derived directly from the last visible message, if there is one. */
  ghost predicate Derived(s: State) {
    LastVisible(s.messages).Some? ==> s.stats.snippet == LastVisible(s.messages).value.preview
  }

  /** It is in every state of the run. */
  ghost predicate AlwaysDerived(s: State, steps: seq<Step>)
    decreases |steps|
  {
    Derived(s) && (steps != [] ==> AlwaysDerived(Next(s, steps[0]), steps[1..]))
  }

  /** Every update the timestamp cannot tell the need of is forced. */
  predicate ForcedWhenAmbiguous(s: State, steps: seq<Step>)
    decreases |steps|
  {
    steps != [] ==>
      && (steps[0].force || !Ambiguous(s.messages, Changed(s.messages, steps[0].change)))
      && ForcedWhenAmbiguous(Next(s, steps[0]), steps[1..])
  }

  lemma {:induction false} DerivedExactlyWhenForced(s: State, steps: seq<Step>)
    requires Table(s.messages) && Fresh(s.messages, s.stats) && Proper(s, steps)
    ensures AlwaysDerived(s, steps) <==> ForcedWhenAmbiguous(s, steps)
    ensures ForcedWhenAmbiguous(s, steps) ==> Derived(Run(s, steps))
    decreases |steps|
  {
    if steps != [] {
      var step, t := steps[0], Next(s, steps[0]);
      ChangeKeepsTable(s.messages, step.change);
      UpdateIsRightUnlessAmbiguous(s.messages, t.messages, s.stats, step.hint, step.force);
      assert t.stats.messagedAt == CreatedAt(LastVisible(t.messages));
      if Fresh(t.messages, t.stats) {
        DerivedExactlyWhenForced(t, steps[1..]);
      } else {
        assert !Derived(t);
      }
    }
  }

  /** Over every run from a new thread in which each change is followed by an update, the
      snippet is in every state the one derived directly from the last visible message, if
      and only if each update is forced or its timestamp is not blind to its change. */
  lemma SnippetIsAlwaysTheDerivedOne(steps: seq<Step>)
    requires Proper(EMPTY, steps)
    ensures AlwaysDerived(EMPTY, steps) <==> ForcedWhenAmbiguous(EMPTY, steps)
    ensures ForcedWhenAmbiguous(EMPTY, steps) ==> Derived(Run(EMPTY, steps))
  {
    DerivedExactlyWhenForced(EMPTY, steps);
  }

  /** Whenever two visible messages could share a timestamp, the update is forced. */
  predicate ForcedWhenInDoubt(s: State, steps: seq<Step>)
    decreases |steps|
  {
    steps != [] ==>
      && (steps[0].force || DistinctTimes(s.messages, Changed(s.messages, steps[0].change)))
      && ForcedWhenInDoubt(Next(s, steps[0]), steps[1..])
  }

  /** Distinct timestamps, or force wherever they may coincide, are enough. */
  lemma {:induction false} ForcedInDoubtSuffices(s: State, steps: seq<Step>)
    requires Table(s.messages) && Proper(s, steps) && ForcedWhenInDoubt(s, steps)
    ensures ForcedWhenAmbiguous(s, steps)
    decreases |steps|
  {
    if steps != [] {
      ChangeKeepsTable(s.messages, steps[0].change);
      if !steps[0].force {
        DistinctTimesAreUnambiguous(s.messages, steps[0].change);
      }
      ForcedInDoubtSuffices(Next(s, steps[0]), steps[1..]);
    }
  }

  /** Two messages imported with one timestamp: trashing the later one without forcing
      leaves the snippet of a message no longer visible. */
  lemma SharedTimestampGoesStale()
    ensures var a, b := Message(1, 5, false, false, "a"), Message(2, 5, false, false, "b");
            var steps := [Step(Insert(a), NoHint, false), Step(Insert(b), NoHint, true),
                          Step(Edit(2, 5, true, false, "b"), NoHint, false)];
            && Proper(EMPTY, steps)
            && Run(EMPTY, steps).stats.snippet == "b"
            && LastVisible(Run(EMPTY, steps).messages) == Some(a)
  {
    var a, b := Message(1, 5, false, false, "a"), Message(2, 5, false, false, "b");
    var s1, s2 := Step(Insert(a), NoHint, false), Step(Insert(b), NoHint, true);
    var s3 := Step(Edit(2, 5, true, false, "b"), NoHint, false);
    var t1 := Next(EMPTY, s1);
    assert [a][1..] == [] && VisibleOnes([a]) == [a];
    assert t1.messages == [a] && t1.stats.messagedAt == Some(5);
    var t2 := Next(t1, s2);
    TwoImported(t1, a, b);
    var t3 := Next(t2, s3);
    LaterOneTrashed(t2, a, b);
    RunThree(EMPTY, s1, s2, s3);
  }

  lemma TwoImported(t: State, a: Message, b: Message)
    requires t.messages == [a] && Visible(a) && Visible(b) && Before(a, b)
    ensures var r := Next(t, Step(Insert(b), NoHint, true));
            r.messages == [a, b] && r.stats.snippet == b.preview && r.stats.messagedAt == Some(b.created)
  {
    assert [a][1..] == [] && InsertInOrder([a], b) == [a, b];
    assert [a, b][1..] == [b] && [b][1..] == [];
    assert VisibleOnes([]) == [] && VisibleOnes([b]) == [b];
    assert VisibleOnes([a, b]) == [a] + [b] == [a, b];
  }

  lemma LaterOneTrashed(t: State, a: Message, b: Message)
    requires t.messages == [a, b] && Visible(a) && Before(a, b) && a.id != b.id
    requires a.created == b.created && t.stats.messagedAt == Some(b.created)
    ensures var r := Next(t, Step(Edit(b.id, b.created, true, false, b.preview), NoHint, false));
            r.stats.snippet == t.stats.snippet && LastVisible(r.messages) == Some(a)
  {
    var b' := Message(b.id, b.created, true, false, b.preview);
    assert [a, b][1..] == [b] && [b][1..] == [] && [a][1..] == [];
    assert RemoveRows([b], {b.id}) == [];
    assert RemoveRows([a, b], {b.id}) == [a];
    assert InsertInOrder([a], b') == [a, b'];
    assert Find([a, b], b.id) == Some(b);
    assert [a, b'][1..] == [b'] && [b'][1..] == [];
    assert VisibleOnes([b']) == [];
    assert VisibleOnes([a, b']) == [a];
  }

  lemma RunThree(s: State, x: Step, y: Step, z: Step)
    requires Allowed(s.messages, x.change) && Faithful(x.hint, Changed(s.messages, x.change))
    requires var t := Next(s, x); Allowed(t.messages, y.change) && Faithful(y.hint, Changed(t.messages, y.change))
    requires var t := Next(Next(s, x), y);
             Allowed(t.messages, z.change) && Faithful(z.hint, Changed(t.messages, z.change))
    ensures Proper(s, [x, y, z]) && Run(s, [x, y, z]) == Next(Next(Next(s, x), y), z)
  {
    var t1 := Next(s, x);
    var t2 := Next(t1, y);
    var t3 := Next(t2, z);
    assert Run(t3, []) == t3 && Proper(t3, []);
    assert [z][1..] == [];
    assert Run(t2, [z]) == t3 && Proper(t2, [z]);
    assert [y, z][1..] == [z];
    assert Run(t1, [y, z]) == t3 && Proper(t1, [y, z]);
    assert [x, y, z][1..] == [y, z];
  }

  // ------------------------------------------------------------------
  // Read state
  // ------------------------------------------------------------------

  /** A comparison in SQL: unknown, hence not satisfied, when either side is null. */
  predicate Less(a: Option<nat>, b: Option<nat>) {
    a.Some? && b.Some? && a.value < b.value
  }

  /** The mailbox's access row, if it has one, and when it last read the thread. */
  datatype Access = NoAccess | Access(readAt: Option<nat>)

  /** `thread_unread_filter` for one mailbox. */
  predicate UnreadCase(messagedAt: Option<nat>, a: Access) {
    if a.Access? && a.readAt.None? && messagedAt.Some? then true
    else if a.Access? && a.readAt.Some? && Less(a.readAt, messagedAt) then true
    else false
  }

  /** `unread_filter`, and the form used across all the mailboxes of a user. */
  predicate UnreadRow(messagedAt: Option<nat>, readAt: Option<nat>) {
    (readAt.None? && messagedAt.Some?) || Less(readAt, messagedAt)
  }

  /** `with_read_state`: the subquery is null without an access row. */
  predicate UnreadMessage(m: Message, a: Access) {
    var readAt := if a.Access? then a.readAt else None;
    if readAt.None? then true else Less(readAt, Some(m.created))
  }

  /** Some visible message reads as unread. */
  ghost predicate SomeUnread(ms: seq<Message>, a: Access) {
    exists m :: m in ms && Visible(m) && UnreadMessage(m, a)
  }

  /** After any proper run, and however stale the snippet: the two thread-level filters agree,
      and the thread reads as unread for a mailbox exactly when some message that is neither
      draft nor trashed does, if and only if the mailbox has access to the thread or the
      thread has no such message at all. */
  lemma ThreadUnreadMeansSomeMessageUnread(steps: seq<Step>, a: Access)
    requires Proper(EMPTY, steps)
    ensures var s := Run(EMPTY, steps);
            && (a.Access? ==> UnreadCase(s.stats.messagedAt, a) == UnreadRow(s.stats.messagedAt, a.readAt))
            && ((UnreadCase(s.stats.messagedAt, a) <==> SomeUnread(s.messages, a)) <==>
                a.Access? || forall m :: m in s.messages ==> !Visible(m))
  {
    MessagedAtIsLatest(EMPTY, steps);
    var ms := Run(EMPTY, steps).messages;
    LastVisibleIsLatest(ms);
    if LastVisible(ms).Some? {
      assert Visible(LastVisible(ms).value);
    }
  }

  lemma {:induction false} MessagedAtIsLatest(s: State, steps: seq<Step>)
    requires Table(s.messages) && s.stats.messagedAt == CreatedAt(LastVisible(s.messages))
    requires Proper(s, steps)
    ensures var t := Run(s, steps); Table(t.messages) && t.stats.messagedAt == CreatedAt(LastVisible(t.messages))
    decreases |steps|
  {
    if steps != [] {
      ChangeKeepsTable(s.messages, steps[0].change);
      MessagedAtIsLatest(Next(s, steps[0]), steps[1..]);
    }
  }

  /** A user sees the thread as unread if and only if some message is unread in one of
      the mailboxes that give access to it. */
  lemma UnreadForUser(steps: seq<Step>, accesses: seq<Option<nat>>)
    requires Proper(EMPTY, steps)
    ensures var s := Run(EMPTY, steps);
            (exists i :: 0 <= i < |accesses| && UnreadRow(s.stats.messagedAt, accesses[i])) <==>
            (exists i :: 0 <= i < |accesses| && SomeUnread(s.messages, Access(accesses[i])))
  {
    var s := Run(EMPTY, steps);
    forall i | 0 <= i < |accesses|
      ensures UnreadRow(s.stats.messagedAt, accesses[i]) <==> SomeUnread(s.messages, Access(accesses[i]))
    {
      ThreadUnreadMeansSomeMessageUnread(steps, Access(accesses[i]));
    }
  }
}
