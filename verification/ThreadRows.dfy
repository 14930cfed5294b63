/** What the denormalised fields of a thread say about its rows, told row by row. */
module ThreadRows {
  import opened Wrappers
  import opened ThreadStats

  /** The row is neither trashed nor a draft, and no such row is later, ids breaking ties. */
  predicate IsShown(ms: seq<Message>, row: Message) {
    && row in ms && !row.draft && !row.trashed
    && forall m :: m in ms && !m.draft && !m.trashed ==>
         m.created < row.created || (m.created == row.created && m.id <= row.id)
  }

  /** The flags and dates are those of the rows. */
  ghost predicate FieldsFit(ms: seq<Message>, st: Stats) {
    && (st.isTrashed <==> ms != [] && forall m :: m in ms ==> m.trashed)
    && (st.hasTrashed <==> exists m :: m in ms && m.trashed)
    && (match st.trashedAt
        case None => forall m :: m in ms ==> !m.trashed
        case Some(d) =>
          && (exists m :: m in ms && m.trashed && m.created == d)
          && forall m :: m in ms && m.trashed ==> m.created <= d)
    && (match st.messagedAt
        case None => forall m :: m in ms ==> m.trashed || m.draft
        case Some(d) =>
          && (exists m :: m in ms && !m.trashed && !m.draft && m.created == d)
          && forall m :: m in ms && !m.trashed && !m.draft ==> m.created <= d)
  }

  /** Every update, on rows in query order: the flags and dates are those of the rows, whatever
      they were; an emptied thread loses its snippet, one without a row to show keeps it, and
      otherwise the snippet is anew that of the row shown if the update is forced or the
      date shown so far is another, taken from what the caller holds of that very row. */
  lemma UpdateFitsTheRows(ms: seq<Message>, st: Stats, hint: Hint, force: bool)
    requires Table(ms)
    ensures var r := Refresh(ms, st, hint, force);
            && FieldsFit(ms, r)
            && (ms == [] ==> r.snippet == "")
            && (ms != [] && (forall m :: m in ms ==> m.trashed || m.draft) ==> r.snippet == st.snippet)
            && forall row :: IsShown(ms, row) ==>
                 r.snippet == if !force && st.messagedAt == Some(row.created) then st.snippet
                              else if hint == NoHint || hint.id != row.id then row.preview
                              else if hint.parsed.Some? then hint.parsed.value
                              else hint.own
  {
    LastVisibleIsLatest(ms);
    LastTrashedIsLatest(ms);
    if ms != [] {
      assert ms[0] in ms;
      forall row | IsShown(ms, row) ensures LastVisible(ms) == Some(row) {
        ShownIsLast(ms, row);
      }
    }
  }

  lemma ShownIsLast(ms: seq<Message>, row: Message)
    requires Table(ms) && IsShown(ms, row)
    ensures LastVisible(ms) == Some(row)
  {
    LastVisibleIsLatest(ms);
    var last := LastVisible(ms).value;
    assert last == row || Before(row, last);
  }

  /** There is a row to show exactly if some row is neither trashed nor a draft. */
  lemma SomeRowIsShown(ms: seq<Message>)
    requires Table(ms)
    ensures (exists row :: IsShown(ms, row)) <==> exists m :: m in ms && !m.trashed && !m.draft
  {
    LastVisibleIsLatest(ms);
    if LastVisible(ms).Some? {
      assert IsShown(ms, LastVisible(ms).value);
    }
  }

  lemma {:induction false} RunFits(s: State, steps: seq<Step>)
    requires Table(s.messages) && FieldsFit(s.messages, s.stats) && Proper(s, steps)
    ensures Table(Run(s, steps).messages) && FieldsFit(Run(s, steps).messages, Run(s, steps).stats)
    decreases |steps|
  {
    if steps != [] {
      var t := Next(s, steps[0]);
      ChangeKeepsTable(s.messages, steps[0].change);
      UpdateFitsTheRows(t.messages, s.stats, steps[0].hint, steps[0].force);
      RunFits(t, steps[1..]);
    }
  }

  /** So it is after every run in which each change is followed by an update. */
  lemma FieldsAlwaysFit(steps: seq<Step>)
    requires Proper(EMPTY, steps)
    ensures FieldsFit(Run(EMPTY, steps).messages, Run(EMPTY, steps).stats)
  {
    RunFits(EMPTY, steps);
  }

  /** What a change does to the rows: in query order by date and then by id, and no row but the
      one named is touched. */
  lemma ChangesTouchOneRow(ms: seq<Message>, c: Change)
    requires Table(ms) && Allowed(ms, c)
    ensures var after := Changed(ms, c);
            && (forall i, j :: 0 <= i < j < |after| ==>
                  after[i].created < after[j].created
                  || (after[i].created == after[j].created && after[i].id < after[j].id))
            && forall x :: x in after <==>
                 match c
                 case Insert(m) => x in ms || x == m
                 case Remove(ids) => x in ms && x.id !in ids
                 case Edit(id, created, trashed, draft, preview) =>
                   || (x in ms && x.id != id)
                   || (x == Message(id, created, trashed, draft, preview) && exists m :: m in ms && m.id == id)
  {
    match c
    case Insert(m) => InsertKeepsTable(ms, m);
    case Remove(ids) => RemoveKeepsTable(ms, ids);
    case Edit(id, created, trashed, draft, preview) =>
      EditKeepsTable(ms, Message(id, created, trashed, draft, preview));
  }

  // ------------------------------------------------------------------
  // Read state
  // ------------------------------------------------------------------

  /** After every run: a thread reads as unread for a mailbox if and only if the mailbox has
      access to it and some row that is neither trashed nor a draft is later than its last
      reading, or there is such a row and it was never read; for the filter across mailboxes,
      which sees the reading only, access goes without saying. */
  lemma UnreadThreadHasALaterRow(steps: seq<Step>, a: Access, readAt: Option<nat>)
    requires Proper(EMPTY, steps)
    ensures var s := Run(EMPTY, steps);
            && (UnreadCase(s.stats.messagedAt, a) <==>
                  && a.Access?
                  && exists m :: m in s.messages && !m.draft && !m.trashed
                       && (a.readAt == None || a.readAt.value < m.created))
            && (UnreadRow(s.stats.messagedAt, readAt) <==>
                  exists m :: m in s.messages && !m.draft && !m.trashed
                    && (readAt == None || readAt.value < m.created))
  {
    FieldsAlwaysFit(steps);
  }

  /** A message reads as unread if the mailbox has not read the thread since it came. */
  lemma UnreadMessageIsLater(m: Message, a: Access)
    ensures UnreadMessage(m, a) <==> a == NoAccess || a.readAt == None || a.readAt.value < m.created
  {
  }
}
