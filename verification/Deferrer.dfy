/** Scoped batching of thread reindex requests: nested `defer` scopes, exceptional exits,
    the chunked flush and the queues an id can wait in. */
module Deferrer {
  import opened Wrappers

  type Id = nat

  /** What runs: scheduling a thread (possibly with no id), a `defer` scope, an exception,
      the end of a database transaction. */
  datatype Prog =
    | Schedule(id: Option<Id>)
    | Scope(body: seq<Prog>)
    | Raise
    | Commit

  /** What the surroundings decide: the order in which a set is listed, and whether the
      broker accepts a chunk. */
  datatype Env = Env(listing: set<Id> -> seq<Id>, accepts: seq<Id> -> bool, batchSize: nat)

  /** `active` is the collection of the current scope; `enqueued` the chunks handed to the
      broker; `onCommit` the callbacks of the open transaction; `pending` the retry set. */
  datatype World = World(
    active: Option<set<Id>>,
    enqueued: seq<seq<Id>>,
    onCommit: seq<Id>,
    pending: set<Id>)

  ghost predicate Lists(list: seq<Id>, items: set<Id>) {
    && |list| == |items|
    && (forall x :: x in list <==> x in items)
    && forall i, j :: 0 <= i < j < |list| ==> list[i] != list[j]
  }

  ghost predicate Lawful(env: Env) {
    env.batchSize > 0 && forall s :: Lists(env.listing(s), s)
  }

  // ------------------------------------------------------------------
  // Chunks
  // ------------------------------------------------------------------

  function Chunks(list: seq<Id>, size: nat): seq<seq<Id>>
    requires size > 0
  {
    if list == [] then []
    else if |list| <= size then [list]
    else [list[..size]] + Chunks(list[size..], size)
  }

  /** What is left of the list from `start` on. */
  function Rest(list: seq<Id>, start: nat): seq<Id> {
    if start <= |list| then list[start..] else []
  }

  /** One turn of the slicing loop peels off one chunk. */
  lemma ChunksStep(list: seq<Id>, start: nat, size: nat)
    requires size > 0 && start < |list|
    ensures var end := if start + size <= |list| then start + size else |list|;
            var chunks := Chunks(Rest(list, start), size);
            && |chunks| > 0 && chunks[0] == list[start..end]
            && chunks[1..] == Chunks(Rest(list, start + size), size)
  {
    var rest := list[start..];
    if |rest| <= size {
      assert list[start..|list|] == rest;
      assert Rest(list, start + size) == [];
    } else {
      assert rest[..size] == list[start..start + size] && rest[size..] == list[start + size..];
    }
  }

  function Flat(chunks: seq<seq<Id>>): seq<Id> {
    if chunks == [] then [] else chunks[0] + Flat(chunks[1..])
  }

  /** No chunk is empty or over the batch size, and only the last may be short. */
  ghost predicate Fitting(chunks: seq<seq<Id>>, size: nat) {
    && (forall i :: 0 <= i < |chunks| ==> 0 < |chunks[i]| <= size)
    && (forall i :: 0 <= i < |chunks| - 1 ==> |chunks[i]| == size)
  }

  lemma FullChunkFits(chunk: seq<Id>, chunks: seq<seq<Id>>, size: nat)
    requires |chunk| == size > 0 && Fitting(chunks, size)
    ensures Fitting([chunk] + chunks, size)
  {
    var all := [chunk] + chunks;
    assert forall i :: 0 < i < |all| ==> all[i] == chunks[i - 1];
  }

  lemma FlatCons(chunk: seq<Id>, chunks: seq<seq<Id>>)
    ensures Flat([chunk] + chunks) == chunk + Flat(chunks)
  {
    assert ([chunk] + chunks)[1..] == chunks;
  }

  /** The chunks are the list cut into pieces: no id is dropped, repeated or reordered. */
  lemma {:induction false} ChunksPartition(list: seq<Id>, size: nat)
    requires size > 0
    ensures Flat(Chunks(list, size)) == list
    ensures Fitting(Chunks(list, size), size)
    decreases |list|
  {
    if list == [] {
    } else if |list| <= size {
      FlatCons(list, []);
      assert [list] + [] == [list] && list + [] == list;
    } else {
      ChunksPartition(list[size..], size);
      FlatCons(list[..size], Chunks(list[size..], size));
      FullChunkFits(list[..size], Chunks(list[size..], size), size);
      assert list[..size] + list[size..] == list;
    }
  }

  // ------------------------------------------------------------------
  // Meaning of a program
  // ------------------------------------------------------------------

  /** Hands the chunks to the broker one by one; the ids of a refused chunk go back to the
      pending set. */
  function Deliver(env: Env, chunks: seq<seq<Id>>, w: World): World {
    if chunks == [] then w
    else
      var w1 :=
        if env.accepts(chunks[0]) then w.(enqueued := w.enqueued + [chunks[0]])
        else w.(pending := w.pending + (set x | x in chunks[0]));
      Deliver(env, chunks[1..], w1)
  }

  function Flush(env: Env, items: set<Id>, w: World): World
    requires env.batchSize > 0
  {
    Deliver(env, Chunks(env.listing(items), env.batchSize), w)
  }

  /** `_schedule_thread_reindex`. */
  function ScheduleOne(id: Option<Id>, w: World): World {
    if w.active.Some? then
      if id.Some? then w.(active := Some(w.active.value + {id.value})) else w
    else if id.Some? then w.(onCommit := w.onCommit + [id.value])
    else w
  }

  /** The world after `p`, and whether an exception leaves it. */
  function Exec(env: Env, p: Prog, w: World): (World, bool)
    requires env.batchSize > 0
    decreases p
  {
    match p
    case Schedule(id) => (ScheduleOne(id, w), false)
    case Raise => (w, true)
    case Commit => (w.(pending := w.pending + (set x | x in w.onCommit), onCommit := []), false)
    case Scope(body) =>
      if w.active.Some? then ExecAll(env, body, w)
      else
        var (w1, raised) := ExecAll(env, body, w.(active := Some({})));
        var items := if w1.active.Some? then w1.active.value else {};
        var w2 := w1.(active := None);
        (if items != {} then Flush(env, items, w2) else w2, raised)
  }

  function ExecAll(env: Env, ps: seq<Prog>, w: World): (World, bool)
    requires env.batchSize > 0
    decreases ps
  {
    if ps == [] then (w, false)
    else
      var (w1, raised) := Exec(env, ps[0], w);
      if raised then (w1, true) else ExecAll(env, ps[1..], w1)
  }

  /** The ids scheduled before `ps` ends or is left by an exception, and whether it is. */
  function Scheduled(p: Prog): (set<Id>, bool)
    decreases p
  {
    match p
    case Schedule(id) => (if id.Some? then {id.value} else {}, false)
    case Raise => ({}, true)
    case Commit => ({}, false)
    case Scope(body) => ScheduledAll(body)
  }

  function ScheduledAll(ps: seq<Prog>): (set<Id>, bool)
    decreases ps
  {
    if ps == [] then ({}, false)
    else
      var (s, raised) := Scheduled(ps[0]);
      if raised then (s, true)
      else
        var (rest, raised') := ScheduledAll(ps[1..]);
        (s + rest, raised')
  }

  // ------------------------------------------------------------------
  // Inside a scope
  // ------------------------------------------------------------------

  ghost function Queued(w: World): set<Id> {
    (set x | x in w.onCommit) + w.pending
  }

  /** Inside a scope nothing is flushed, however scopes nest and however they are left:
      the collection grows by exactly what was scheduled, and the queues keep what they
      hold. */
  lemma {:induction false} InnerScopesOnlyCollect(env: Env, ps: seq<Prog>, w: World)
    requires env.batchSize > 0 && w.active.Some?
    ensures var (w', raised) := ExecAll(env, ps, w);
            && w'.active == Some(w.active.value + ScheduledAll(ps).0)
            && raised == ScheduledAll(ps).1
            && w'.enqueued == w.enqueued && Queued(w') == Queued(w)
    decreases ps
  {
    if ps != [] {
      var (w1, raised) := Exec(env, ps[0], w);
      match ps[0] {
        case Scope(body) => InnerScopesOnlyCollect(env, body, w);
        case _ =>
      }
      var (first, rest) := (Scheduled(ps[0]).0, ScheduledAll(ps[1..]).0);
      assert w.active.value + {} == w.active.value;
      assert w1.active == Some(w.active.value + first) && raised == Scheduled(ps[0]).1;
      if !raised {
        InnerScopesOnlyCollect(env, ps[1..], w1);
        assert w.active.value + first + rest == w.active.value + (first + rest);
      }
    } else {
      assert w.active.value + {} == w.active.value;
    }
  }

  // ------------------------------------------------------------------
  // The outermost exit
  // ------------------------------------------------------------------

  ghost function InChunks(chunks: seq<seq<Id>>): set<Id> {
    set x | x in Flat(chunks)
  }

  /** The chunks the broker took, and the ids of those it refused. */
  function Accepted(env: Env, chunks: seq<seq<Id>>): seq<seq<Id>> {
    if chunks == [] then []
    else (if env.accepts(chunks[0]) then [chunks[0]] else []) + Accepted(env, chunks[1..])
  }

  function Refused(env: Env, chunks: seq<seq<Id>>): set<Id> {
    if chunks == [] then {}
    else (if env.accepts(chunks[0]) then {} else set x | x in chunks[0]) + Refused(env, chunks[1..])
  }

  lemma InChunksCons(c: seq<Id>, rest: seq<seq<Id>>)
    ensures InChunks([c] + rest) == (set x | x in c) + InChunks(rest)
  {
    assert ([c] + rest)[1..] == rest;
  }

  lemma {:induction false} AcceptedOrRefused(env: Env, chunks: seq<seq<Id>>)
    ensures InChunks(Accepted(env, chunks)) + Refused(env, chunks) == InChunks(chunks)
    decreases chunks
  {
    if chunks != [] {
      AcceptedOrRefused(env, chunks[1..]);
      InChunksCons(chunks[0], chunks[1..]);
      InChunksCons(chunks[0], Accepted(env, chunks[1..]));
      assert chunks == [chunks[0]] + chunks[1..];
      assert [] + Accepted(env, chunks[1..]) == Accepted(env, chunks[1..]);
    }
  }

  lemma {:induction false} DeliverSplits(env: Env, chunks: seq<seq<Id>>, w: World)
    ensures Deliver(env, chunks, w)
         == w.(enqueued := w.enqueued + Accepted(env, chunks), pending := w.pending + Refused(env, chunks))
    decreases chunks
  {
    if chunks == [] {
      assert w.enqueued + [] == w.enqueued && w.pending + {} == w.pending;
    } else {
      var ids := set x | x in chunks[0];
      var rest, lost := Accepted(env, chunks[1..]), Refused(env, chunks[1..]);
      if env.accepts(chunks[0]) {
        DeliverSplits(env, chunks[1..], w.(enqueued := w.enqueued + [chunks[0]]));
        assert w.enqueued + [chunks[0]] + rest == w.enqueued + ([chunks[0]] + rest);
        assert {} + lost == lost;
      } else {
        DeliverSplits(env, chunks[1..], w.(pending := w.pending + ids));
        assert w.pending + ids + lost == w.pending + (ids + lost);
        assert [] + rest == rest;
      }
    }
  }

  /** One flush: duplicate-free chunks of bounded size that hold the items and no other
      ids; what the broker takes is enqueued, the rest becomes pending. */
  lemma FlushIsExact(env: Env, items: set<Id>, w: World)
    requires Lawful(env)
    ensures var chunks := Chunks(env.listing(items), env.batchSize);
            && Flush(env, items, w)
               == w.(enqueued := w.enqueued + Accepted(env, chunks), pending := w.pending + Refused(env, chunks))
            && Lists(Flat(chunks), items)
            && (forall i :: 0 <= i < |chunks| ==> 0 < |chunks[i]| <= env.batchSize)
            && InChunks(Accepted(env, chunks)) + Refused(env, chunks) == items
    ensures items == {} ==> Flush(env, items, w) == w
  {
    var list := env.listing(items);
    var chunks := Chunks(list, env.batchSize);
    assert Lists(list, items);
    ChunksPartition(list, env.batchSize);
    DeliverSplits(env, chunks, w);
    AcceptedOrRefused(env, chunks);
  }

  /** The world when the body of an outermost scope has ended and the scope is closed. */
  function AtExit(env: Env, body: seq<Prog>, w: World): World
    requires env.batchSize > 0
  {
    ExecAll(env, body, w.(active := Some({}))).0.(active := None)
  }

  /** Leaving the outermost scope, normally or by an exception: the scope is closed and
      flushes, once, exactly the ids scheduled anywhere inside; queued ids stay. */
  lemma OutermostExitFlushesOnce(env: Env, body: seq<Prog>, w: World)
    requires Lawful(env) && w.active.None?
    ensures var (w', raised) := Exec(env, Scope(body), w);
            var w1 := AtExit(env, body, w);
            && raised == ScheduledAll(body).1
            && w1.active.None? && w1.enqueued == w.enqueued && Queued(w1) == Queued(w)
            && w' == Flush(env, ScheduledAll(body).0, w1)
  {
    var w0 := w.(active := Some({}));
    var items := ScheduledAll(body).0;
    InnerScopesOnlyCollect(env, body, w0);
    assert {} + items == items;
    FlushIsExact(env, items, AtExit(env, body, w));
  }

  // ------------------------------------------------------------------
  // Nothing is lost
  // ------------------------------------------------------------------

  /** Everywhere an id can be. */
  ghost function Held(w: World): set<Id> {
    (if w.active.Some? then w.active.value else {}) + InChunks(w.enqueued) + Queued(w)
  }

  lemma {:induction false} FlatConcat(a: seq<seq<Id>>, b: seq<seq<Id>>)
    ensures Flat(a + b) == Flat(a) + Flat(b)
  {
    if a == [] {
      assert a + b == b;
    } else {
      assert (a + b)[1..] == a[1..] + b;
      FlatConcat(a[1..], b);
    }
  }

  lemma FlushHolds(env: Env, items: set<Id>, w: World)
    requires Lawful(env) && w.active.None?
    ensures Flush(env, items, w).active.None? && Held(Flush(env, items, w)) == Held(w) + items
  {
    FlushIsExact(env, items, w);
    FlatConcat(w.enqueued, Accepted(env, Chunks(env.listing(items), env.batchSize)));
  }

  lemma ExecHolds(env: Env, p: Prog, w: World)
    requires Lawful(env) && w.active.None?
    ensures var (w', raised) := Exec(env, p, w);
            w'.active.None? && raised == Scheduled(p).1 && Held(w') == Held(w) + Scheduled(p).0
  {
    if p.Scope? {
      OutermostExitFlushesOnce(env, p.body, w);
      FlushHolds(env, ScheduledAll(p.body).0, AtExit(env, p.body, w));
    }
  }

  /** From outside any scope, every program moves ids only into the places where they
      wait: afterwards exactly the ids held before and the ids it scheduled are held. */
  lemma {:induction false} NothingIsLost(env: Env, ps: seq<Prog>, w: World)
    requires Lawful(env) && w.active.None?
    ensures var (w', raised) := ExecAll(env, ps, w);
            && w'.active.None? && raised == ScheduledAll(ps).1
            && Held(w') == Held(w) + ScheduledAll(ps).0
    decreases ps
  {
    if ps != [] {
      var (w1, raised) := Exec(env, ps[0], w);
      ExecHolds(env, ps[0], w);
      if !raised {
        NothingIsLost(env, ps[1..], w1);
      }
    }
  }

  // ------------------------------------------------------------------
  // Before and after the commit
  // ------------------------------------------------------------------

  /** No transaction ends in the program. */
  predicate NoCommit(ps: seq<Prog>)
    decreases ps
  {
    ps != [] ==>
      && ps[0] != Commit && (ps[0].Scope? ==> NoCommit(ps[0].body))
      && NoCommit(ps[1..])
  }

  /** From `w` to `w'` the hooks have only become more, and nothing has become pending. */
  ghost predicate OnlyHooked(w: World, w': World) {
    w.onCommit <= w'.onCommit && w'.pending == w.pending
  }

  lemma {:induction false} AllAccepted(env: Env, chunks: seq<seq<Id>>, w: World)
    requires forall chunk :: env.accepts(chunk)
    ensures OnlyHooked(w, Deliver(env, chunks, w))
    decreases chunks
  {
    if chunks != [] {
      AllAccepted(env, chunks[1..], w.(enqueued := w.enqueued + [chunks[0]]));
    }
  }

  /** Until a transaction ends, and as long as the broker takes every chunk, nothing becomes
      pending: an id waits for the commit where it was put. */
  lemma {:induction false} NothingIsPendingBeforeTheCommit(env: Env, ps: seq<Prog>, w: World)
    requires env.batchSize > 0 && NoCommit(ps) && forall chunk :: env.accepts(chunk)
    ensures OnlyHooked(w, ExecAll(env, ps, w).0)
    decreases ps
  {
    if ps != [] {
      var (w1, raised) := Exec(env, ps[0], w);
      if ps[0].Scope? {
        var body := ps[0].body;
        if w.active.Some? {
          NothingIsPendingBeforeTheCommit(env, body, w);
        } else {
          NothingIsPendingBeforeTheCommit(env, body, w.(active := Some({})));
          var w2 := ExecAll(env, body, w.(active := Some({}))).0;
          var items := if w2.active.Some? then w2.active.value else {};
          AllAccepted(env, Chunks(env.listing(items), env.batchSize), w2.(active := None));
        }
      }
      if !raised {
        NothingIsPendingBeforeTheCommit(env, ps[1..], w1);
      }
    }
  }

  lemma {:induction false} ExecSnoc(env: Env, ps: seq<Prog>, p: Prog, w: World)
    requires env.batchSize > 0 && !ExecAll(env, ps, w).1
    ensures ExecAll(env, ps + [p], w) == Exec(env, p, ExecAll(env, ps, w).0)
    decreases |ps|
  {
    if ps == [] {
      assert (ps + [p])[1..] == [];
      var (w1, raised) := Exec(env, p, w);
      assert ExecAll(env, [], w1) == (w1, false);
    } else {
      assert (ps + [p])[0] == ps[0] && (ps + [p])[1..] == ps[1..] + [p];
      ExecSnoc(env, ps[1..], p, Exec(env, ps[0], w).0);
    }
  }

  /** When the transaction ends, every id that waited for it is pending and none waits any
      more; chunks and the open scope are not touched. */
  lemma CommitEmptiesTheHooks(env: Env, ps: seq<Prog>, w: World)
    requires env.batchSize > 0 && !ExecAll(env, ps, w).1
    ensures var before, (after, raised) := ExecAll(env, ps, w).0, ExecAll(env, ps + [Commit], w);
            && !raised && after.onCommit == []
            && (forall x :: x in after.pending <==> x in before.pending || x in before.onCommit)
            && after.enqueued == before.enqueued && after.active == before.active
  {
    ExecSnoc(env, ps, Commit, w);
  }

  // ------------------------------------------------------------------
  // The deferrer as it runs
  // ------------------------------------------------------------------

  class ReindexDeferrer {
    var active: Option<set<Id>>
    var enqueued: seq<seq<Id>>
    var onCommit: seq<Id>
    var pending: set<Id>

    constructor ()
      ensures Now() == World(None, [], [], {})
    {
      active, enqueued, onCommit, pending := None, [], [], {};
    }

    function Now(): World
      reads this
    {
      World(active, enqueued, onCommit, pending)
    }

    /** Returns whether a scope is active, in which case the item has been collected. */
    method DeferItem(item: Option<Id>) returns (deferred: bool)
      modifies this`active
      ensures deferred == old(active).Some?
      ensures active == if old(active).Some? && item.Some? then Some(old(active).value + {item.value}) else old(active)
    {
      if active.None? {
        return false;
      }
      if item.Some? {
        active := Some(active.value + {item.value});
      }
      return true;
    }

    method ScheduleThreadReindex(id: Option<Id>)
      modifies this
      ensures Now() == ScheduleOne(id, old(Now()))
    {
      var deferred := DeferItem(id);
      if !deferred && id.Some? {
        onCommit := onCommit + [id.value];
      }
    }

    method FlushItems(env: Env, items: set<Id>)
      requires env.batchSize > 0
      modifies this
      ensures Now() == Flush(env, items, old(Now()))
    {
      var threadIds := env.listing(items);
      var start := 0;
      while start < |threadIds|
        invariant 0 <= start
        invariant Deliver(env, Chunks(Rest(threadIds, start), env.batchSize), Now()) == Flush(env, items, old(Now()))
        decreases |threadIds| - start
      {
        var end := if start + env.batchSize <= |threadIds| then start + env.batchSize else |threadIds|;
        var chunk := threadIds[start..end];
        ChunksStep(threadIds, start, env.batchSize);
        if env.accepts(chunk) {
          enqueued := enqueued + [chunk];
        } else {
          pending := pending + (set x | x in chunk);
        }
        start := start + env.batchSize;
      }
    }

    /** Runs one program; the exit of a scope is handled whether or not its body raised. */
    method RunOne(env: Env, p: Prog) returns (raised: bool)
      requires env.batchSize > 0
      modifies this
      ensures (Now(), raised) == Exec(env, p, old(Now()))
      decreases p
    {
      match p
      case Schedule(id) =>
        ScheduleThreadReindex(id);
        return false;
      case Raise =>
        return true;
      case Commit =>
        pending := pending + (set x | x in onCommit);
        onCommit := [];
        return false;
      case Scope(body) =>
        var isDeferring := active.Some?;
        if !isDeferring {
          active := Some({});
        }
        raised := RunAll(env, body);
        if !isDeferring {
          var items := if active.Some? then active.value else {};
          active := None;
          if items != {} {
            FlushItems(env, items);
          }
        }
    }

    method RunAll(env: Env, ps: seq<Prog>) returns (raised: bool)
      requires env.batchSize > 0
      modifies this
      ensures (Now(), raised) == ExecAll(env, ps, old(Now()))
      decreases ps
    {
      var i := 0;
      while i < |ps|
        invariant 0 <= i <= |ps|
        invariant ExecAll(env, ps[i..], Now()) == ExecAll(env, ps, old(Now()))
      {
        assert ps[i..][0] == ps[i] && ps[i..][1..] == ps[i + 1..];
        raised := RunOne(env, ps[i]);
        if raised {
          return true;
        }
        i := i + 1;
      }
      return false;
    }
  }
}
