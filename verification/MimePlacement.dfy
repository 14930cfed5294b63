/** What the flat walk does with every part of a message, stated against the
    pre-order listing rather than against the walk's own steps. */
module MimePlacement {
  import opened MimeTree
  import opened MimeWalk

  // ------------------------------------------------------------------
  // How far the walk gets
  // ------------------------------------------------------------------

  /** From `s` to `r` the walk went through the first `budget` entries of `entries`. */
  ghost predicate WentThrough(s: State, r: State, entries: seq<Entry>, budget: nat) {
    && r.parts == s.parts + Min(|entries|, budget)
    && r.nextId == s.nextId + |Numbered(entries, budget)|
    && (r.ambiguous <==> s.ambiguous || Ambiguous(entries, budget))
  }

  lemma WentThroughBoth(s: State, m: State, r: State, p: seq<Entry>, q: seq<Entry>, budget: nat)
    requires WentThrough(s, m, p, budget) && WentThrough(m, r, q, Sub(budget, |p|))
    ensures WentThrough(s, r, p + q, budget)
  {
    NumberedConcat(p, q, budget);
    AmbiguousConcat(p, q, budget);
  }

  /** What the walk has open in front of a sibling is what the earlier siblings leave
      open, whatever happened to the lists meanwhile. */
  lemma OpenStep(parts: seq<Part>, i: nat, at: Place, live: Live, o: Options, s: State)
    requires i < |parts|
    ensures OpenAt(parts, 0, at, live) == live
    ensures Visit(parts, i, at, OpenAt(parts, i, at, live), o, s).1 == OpenAt(parts, i + 1, at, live)
  {
    forall ctype: string
      ensures ShutBefore(parts, i + 1, at, ctype) <==> ShutBefore(parts, i, at, ctype) || Shuts(parts, i, at, ctype)
    {
      if Shuts(parts, i, at, ctype) {
        assert ShutBefore(parts, i + 1, at, ctype);
      }
    }
  }

  lemma {:induction false} VisitWentThrough(
    parts: seq<Part>, i: nat, at: Place, live: Live, o: Options, s: State)
    requires i < |parts| && at.depth <= o.maxDepth && s.parts < o.maxParts
    ensures WentThrough(s, Visit(parts, i, at, OpenAt(parts, i, at, live), o, s).0,
                        Head(parts, i, at, live, o), o.maxParts - s.parts)
    decreases parts, |parts| - i, 0
  {
    var budget := o.maxParts - s.parts;
    var now := OpenAt(parts, i, at, live);
    match parts[i]
    case Single(leaf) =>
      assert Numbered(Head(parts, i, at, live, o), budget) == Head(parts, i, at, live, o);
    case Multi(_, _, children) =>
      var s1 := s.(parts := s.parts + 1);
      if Reuses(parts[i], at) {
        assert Ambiguous([Container(true)], budget);
      } else {
        var below := Listing(children, 0, Below(parts[i], at), now, o);
        ParseWentThrough(children, Below(parts[i], at), now, o, s1);
        ContainerWentThrough(s, Parse(children, Below(parts[i], at), now, o, s1), below, budget);
      }
  }

  lemma ContainerWentThrough(s: State, r: State, below: seq<Entry>, budget: nat)
    requires budget > 0 && WentThrough(s.(parts := s.parts + 1), r, below, budget - 1)
    ensures WentThrough(s, r, [Container(false)] + below, budget)
  {
    assert !Ambiguous([Container(false)], budget);
    WentThroughBoth(s, s.(parts := s.parts + 1), r, [Container(false)], below, budget);
  }

  /** What one sibling with everything beneath it takes of the part cap. */
  lemma VisitSpends(parts: seq<Part>, i: nat, at: Place, live: Live, o: Options, s: State)
    requires i < |parts| && at.depth <= o.maxDepth && s.parts < o.maxParts
    ensures var m := Visit(parts, i, at, OpenAt(parts, i, at, live), o, s).0;
            && m.parts <= o.maxParts
            && o.maxParts - m.parts == Sub(o.maxParts - s.parts, |Head(parts, i, at, live, o)|)
  {
    VisitWentThrough(parts, i, at, live, o, s);
  }

  lemma {:induction false} LoopWentThrough(
    parts: seq<Part>, i: nat, at: Place, live: Live, o: Options, s: State)
    requires i <= |parts| && at.depth <= o.maxDepth && s.parts <= o.maxParts
    ensures var r := Loop(parts, i, at, OpenAt(parts, i, at, live), o, s);
            && WentThrough(s, r.state, Listing(parts, i, at, live, o), o.maxParts - s.parts)
            && (|Listing(parts, i, at, live, o)| <= o.maxParts - s.parts ==> !r.stopped)
    decreases parts, |parts| - i
  {
    if i < |parts| && s.parts < o.maxParts {
      var s' := Visit(parts, i, at, OpenAt(parts, i, at, live), o, s).0;
      OpenStep(parts, i, at, live, o, s);
      VisitWentThrough(parts, i, at, live, o, s);
      LoopWentThrough(parts, i + 1, at, live, o, s');
      WentThroughBoth(s, s', Loop(parts, i + 1, at, OpenAt(parts, i + 1, at, live), o, s').state,
                      Head(parts, i, at, live, o), Listing(parts, i + 1, at, live, o), o.maxParts - s.parts);
    }
  }

  lemma {:induction false} ParseWentThrough(parts: seq<Part>, at: Place, live: Live, o: Options, s: State)
    requires s.parts <= o.maxParts
    ensures WentThrough(s, Parse(parts, at, live, o, s), Listing(parts, 0, at, live, o), o.maxParts - s.parts)
    decreases parts, |parts| + 1
  {
    if at.depth <= o.maxDepth {
      assert OpenAt(parts, 0, at, live) == live;
      LoopWentThrough(parts, 0, at, live, o, s);
    }
  }

  // ------------------------------------------------------------------
  // Where each numbered leaf ends up
  // ------------------------------------------------------------------

  ghost function Ids(list: seq<BodyPart>): set<nat> {
    set p | p in list :: p.id
  }

  lemma IdsConcat(a: seq<BodyPart>, b: seq<BodyPart>)
    ensures Ids(a + b) == Ids(a) + Ids(b)
  {
    forall n | n in Ids(a) + Ids(b) ensures n in Ids(a + b) {
      var p :| p in a + b && p.id == n;
    }
  }

  /** Strictly increasing in partId, and every entry is a leaf numbered so far, under
      its own number. */
  ghost predicate Ordered(list: seq<BodyPart>, table: seq<Entry>, upTo: nat) {
    && upTo <= |table|
    && (forall j, k :: 0 <= j < k < |list| ==> list[j].id < list[k].id)
    && forall j :: 0 <= j < |list| ==>
         var p := list[j];
         1 <= p.id <= upTo && table[p.id - 1].Item? && table[p.id - 1].leaf == p.leaf
  }

  /** Whether the walk puts a leaf into the text list when it comes to it, not counting
      the copies a later fallback makes. */
  predicate ToText(e: Entry)
    requires e.Item?
  {
    && IsInline(e.leaf, e.index, e.kind) && e.live.text
    && (if e.kind == ALTERNATIVE then e.leaf.ctype == "text/plain"
        else e.alts == 0 || e.leaf.ctype != "text/html")
  }

  predicate ToHtml(e: Entry)
    requires e.Item?
  {
    && IsInline(e.leaf, e.index, e.kind) && e.live.html
    && (if e.kind == ALTERNATIVE then e.leaf.ctype == "text/html"
        else e.alts == 0 || e.leaf.ctype != "text/plain")
  }

  predicate ToAttachments(e: Entry)
    requires e.Item?
  {
    || !IsInline(e.leaf, e.index, e.kind)
    || (e.kind == ALTERNATIVE && e.leaf.ctype != "text/plain" && e.leaf.ctype != "text/html")
  }

  /** The fate of a leaf, by the lists its number is in: it is an attachment or not by its
      headers and position; it is in every body list it is put into, and in some body list
      exactly if it is put into one (a fallback may add the other); outside every
      alternative, and right below an outermost one, both lists are open. */
  ghost predicate Fate(e: Entry, inText: bool, inHtml: bool, inAtt: bool)
    requires e.Item?
  {
    && (inAtt <==> ToAttachments(e))
    && (ToText(e) ==> inText)
    && (ToHtml(e) ==> inHtml)
    && (inText || inHtml <==> ToText(e) || ToHtml(e))
    && (e.kind == ALTERNATIVE ==> e.alts > 0)
    && (e.alts == 0 || (e.kind == ALTERNATIVE && e.alts == 1) ==> e.live == BOTH)
  }

  ghost predicate Placed(table: seq<Entry>, n: nat, s: State)
    requires 1 <= n <= |table|
  {
    table[n - 1].Item? && Fate(table[n - 1], n in Ids(s.text), n in Ids(s.html), n in Ids(s.att))
  }

  ghost predicate AllPlaced(s: State, table: seq<Entry>)
    requires s.nextId <= |table|
  {
    forall n :: 1 <= n <= s.nextId ==> Placed(table, n, s)
  }

  ghost predicate Sound(s: State, table: seq<Entry>) {
    && Ordered(s.text, table, s.nextId)
    && Ordered(s.html, table, s.nextId)
    && Ordered(s.att, table, s.nextId)
    && AllPlaced(s, table)
  }

  /** Only the lists and the id counter matter for soundness. */
  lemma SoundIgnoresRest(s: State, r: State, table: seq<Entry>)
    requires Sound(s, table)
    requires r.text == s.text && r.html == s.html && r.att == s.att && r.nextId == s.nextId
    ensures Sound(r, table)
  {
    forall n | 1 <= n <= r.nextId ensures Placed(table, n, r) {
      assert Placed(table, n, s);
    }
  }

  /** The leaves `next` are the ones the table lists from position `from` on. */
  ghost predicate Located(table: seq<Entry>, from: nat, next: seq<Entry>) {
    from + |next| <= |table| && table[from..from + |next|] == next
  }

  /** Lists are only ever shut below an alternative, and not by its direct children. */
  ghost predicate LiveFits(at: Place, live: Live) {
    at.alts == 0 || (at.kind == ALTERNATIVE && at.alts == 1) ==> live == BOTH
  }

  /** What one leaf adds to the three lists. */
  lemma EmitRoutes(s: State, leaf: Leaf, index: nat, at: Place, live: Live)
    requires at.Valid() && LiveFits(at, live)
    ensures var r := Emit(s, leaf, index, at, live).0;
            var p := BodyPart(s.nextId + 1, leaf);
            && r.nextId == s.nextId + 1
            && r.text in {s.text, s.text + [p]}
            && r.html in {s.html, s.html + [p]}
            && r.att in {s.att, s.att + [p]}
            && Fate(Item(leaf, index, at.kind, at.alts, live),
                    r.text == s.text + [p], r.html == s.html + [p], r.att == s.att + [p])
  {
  }

  /** Lists that fit in front of all the siblings fit in front of each. */
  lemma OpenFits(parts: seq<Part>, i: nat, at: Place, live: Live)
    requires i <= |parts| && LiveFits(at, live)
    ensures LiveFits(at, OpenAt(parts, i, at, live))
  {
  }

  /** Appending the leaf just numbered, or nothing, keeps a list ordered and changes
      its id set by at most that number. */
  lemma AppendOrdered(list: seq<BodyPart>, after: seq<BodyPart>, p: BodyPart, table: seq<Entry>, upTo: nat)
    requires Ordered(list, table, upTo) && upTo < |table|
    requires p.id == upTo + 1 && table[upTo].Item? && table[upTo].leaf == p.leaf
    requires after in {list, list + [p]}
    ensures Ordered(after, table, upTo + 1)
    ensures forall n :: n <= upTo ==> (n in Ids(after) <==> n in Ids(list))
    ensures p.id in Ids(after) <==> after == list + [p]
  {
    IdsConcat(list, [p]);
    assert Ids([p]) == {p.id};
  }

  lemma EmitSound(s: State, leaf: Leaf, index: nat, at: Place, live: Live, table: seq<Entry>)
    requires Sound(s, table) && at.Valid() && LiveFits(at, live)
    requires s.nextId < |table| && table[s.nextId] == Item(leaf, index, at.kind, at.alts, live)
    ensures Sound(Emit(s, leaf, index, at, live).0, table)
  {
    EmitRoutes(s, leaf, index, at, live);
    var r := Emit(s, leaf, index, at, live).0;
    var p := BodyPart(s.nextId + 1, leaf);
    AppendOrdered(s.text, r.text, p, table, s.nextId);
    AppendOrdered(s.html, r.html, p, table, s.nextId);
    AppendOrdered(s.att, r.att, p, table, s.nextId);
    forall n | 1 <= n <= r.nextId ensures Placed(table, n, r) {
      if n <= s.nextId {
        assert Placed(table, n, s);
      }
    }
  }

  /** Copying the tail of one list behind another that did not grow. */
  lemma CopyOrdered(before: seq<BodyPart>, from: seq<BodyPart>, start: nat, table: seq<Entry>, floor: nat, upTo: nat)
    requires floor <= upTo && start <= |from|
    requires Ordered(before, table, floor) && Ordered(from, table, upTo)
    requires forall j :: start <= j < |from| ==> from[j].id > floor
    ensures Ordered(before + from[start..], table, upTo)
    ensures Ids(before) <= Ids(before + from[start..]) <= Ids(before) + Ids(from)
  {
    IdsConcat(before, from[start..]);
  }

  /** Leaves may join one body list when they are in the other one already. */
  lemma PlacedAfterCopy(r: State, f: State, table: seq<Entry>)
    requires r.nextId == f.nextId <= |table| && AllPlaced(r, table)
    requires r.att == f.att
    requires Ids(r.text) <= Ids(f.text) <= Ids(r.text) + Ids(r.html)
    requires Ids(r.html) <= Ids(f.html) <= Ids(r.text) + Ids(r.html)
    requires f.text == r.text || f.html == r.html
    ensures AllPlaced(f, table)
  {
    forall n | 1 <= n <= f.nextId ensures Placed(table, n, f) {
      assert Placed(table, n, r);
    }
  }

  lemma FallbackSound(s: State, r: State, at: Place, live: Live, table: seq<Entry>)
    requires Sound(s, table) && Sound(r, table) && Grows(s, r)
    ensures Sound(Fallback(r, at, live, |s.text|, |s.html|), table)
  {
    var f := Fallback(r, at, live, |s.text|, |s.html|);
    if f.text != r.text {
      assert s.text == r.text;
      CopyOrdered(s.text, r.html, |s.html|, table, s.nextId, r.nextId);
      PlacedAfterCopy(r, f, table);
    } else if f.html != r.html {
      assert s.html == r.html;
      CopyOrdered(s.html, r.text, |s.text|, table, s.nextId, r.nextId);
      PlacedAfterCopy(r, f, table);
    }
  }

  lemma LocatedParts(table: seq<Entry>, from: nat, a: seq<Entry>, b: seq<Entry>)
    requires Located(table, from, a + b)
    ensures Located(table, from, a) && Located(table, from + |a|, b)
  {
    var both := table[from..from + |a + b|];
    assert table[from..from + |a|] == both[..|a|] == a;
    assert table[from + |a|..from + |a| + |b|] == both[|a|..] == b;
  }

  lemma LocatedSplit(table: seq<Entry>, from: nat, p: seq<Entry>, q: seq<Entry>, budget: nat)
    requires Located(table, from, Numbered(p + q, budget))
    ensures Located(table, from, Numbered(p, budget))
    ensures Located(table, from + |Numbered(p, budget)|, Numbered(q, Sub(budget, |p|)))
  {
    NumberedConcat(p, q, budget);
    LocatedParts(table, from, Numbered(p, budget), Numbered(q, Sub(budget, |p|)));
  }

  lemma {:induction false} VisitSound(
    parts: seq<Part>, i: nat, at: Place, live: Live, o: Options, s: State, table: seq<Entry>)
    requires i < |parts| && at.depth <= o.maxDepth && s.parts < o.maxParts
    requires Sound(s, table) && at.Valid() && LiveFits(at, live)
    requires Located(table, s.nextId, Numbered(Head(parts, i, at, live, o), o.maxParts - s.parts))
    ensures Sound(Visit(parts, i, at, OpenAt(parts, i, at, live), o, s).0, table)
    decreases parts, |parts| - i, 0
  {
    var now := OpenAt(parts, i, at, live);
    OpenFits(parts, i, at, live);
    match parts[i]
    case Single(leaf) =>
      FirstLocated(table, s.nextId, Item(leaf, i, at.kind, at.alts, now), o.maxParts - s.parts);
      EmitSound(s, leaf, i, at, now, table);
    case Multi(_, _, children) =>
      var s1 := s.(parts := s.parts + 1);
      SoundIgnoresRest(s, s1, table);
      if Reuses(parts[i], at) {
        SoundIgnoresRest(s, s1.(ambiguous := true), table);
      } else {
        var below := Below(parts[i], at);
        ContainerLocated(table, s.nextId, Listing(children, 0, below, now, o), o.maxParts - s.parts);
        ParseSound(children, below, now, o, s1, table);
      }
  }

  lemma FirstLocated(table: seq<Entry>, from: nat, e: Entry, budget: nat)
    requires budget > 0 && e.Item? && Located(table, from, Numbered([e], budget))
    ensures from < |table| && table[from] == e
  {
    assert Numbered([e], budget) == [e];
    assert table[from..from + 1][0] == e;
  }

  /** A container takes a unit of the budget and no place in the table. */
  lemma ContainerLocated(table: seq<Entry>, from: nat, rest: seq<Entry>, budget: nat)
    requires budget > 0 && Located(table, from, Numbered([Container(false)] + rest, budget))
    ensures Located(table, from, Numbered(rest, budget - 1))
  {
    LocatedSplit(table, from, [Container(false)], rest, budget);
    assert Numbered([Container(false)], budget) == [];
  }

  /** After the first entries have been gone through, the others are next in the table. */
  lemma RestLocated(s: State, s': State, table: seq<Entry>, head: seq<Entry>, rest: seq<Entry>, maxParts: nat)
    requires s.parts <= maxParts && WentThrough(s, s', head, maxParts - s.parts)
    requires Located(table, s.nextId, Numbered(head + rest, maxParts - s.parts))
    ensures Located(table, s.nextId, Numbered(head, maxParts - s.parts))
    ensures s'.parts <= maxParts && Located(table, s'.nextId, Numbered(rest, maxParts - s'.parts))
  {
    LocatedSplit(table, s.nextId, head, rest, maxParts - s.parts);
  }

  lemma {:induction false} LoopSound(
    parts: seq<Part>, i: nat, at: Place, live: Live, o: Options, s: State, table: seq<Entry>)
    requires i <= |parts| && at.depth <= o.maxDepth && s.parts <= o.maxParts
    requires Sound(s, table) && at.Valid() && LiveFits(at, live)
    requires Located(table, s.nextId, Numbered(Listing(parts, i, at, live, o), o.maxParts - s.parts))
    ensures Sound(Loop(parts, i, at, OpenAt(parts, i, at, live), o, s).state, table)
    decreases parts, |parts| - i
  {
    if i < |parts| && s.parts < o.maxParts {
      var s' := Visit(parts, i, at, OpenAt(parts, i, at, live), o, s).0;
      OpenStep(parts, i, at, live, o, s);
      VisitWentThrough(parts, i, at, live, o, s);
      RestLocated(s, s', table, Head(parts, i, at, live, o), Listing(parts, i + 1, at, live, o), o.maxParts);
      VisitSound(parts, i, at, live, o, s, table);
      LoopSound(parts, i + 1, at, live, o, s', table);
    }
  }

  lemma {:induction false} ParseSound(
    parts: seq<Part>, at: Place, live: Live, o: Options, s: State, table: seq<Entry>)
    requires s.parts <= o.maxParts
    requires Sound(s, table) && at.Valid() && LiveFits(at, live)
    requires Located(table, s.nextId, Numbered(Listing(parts, 0, at, live, o), o.maxParts - s.parts))
    ensures Sound(Parse(parts, at, live, o, s), table)
    decreases parts, |parts| + 1
  {
    if at.depth <= o.maxDepth {
      assert OpenAt(parts, 0, at, live) == live;
      LoopSound(parts, 0, at, live, o, s, table);
      LoopGrows(parts, 0, at, live, o, s);
      var r := Loop(parts, 0, at, live, o, s);
      FallbackSound(s, r.state, at, r.live, table);
    }
  }

  // ------------------------------------------------------------------
  // The whole message
  // ------------------------------------------------------------------

  /** The leaves the walk of `root` numbers, in order. */
  function Table(root: Part, o: Options): seq<Entry> {
    Numbered(Entries(root, o), o.maxParts)
  }

  /** For every message and every pair of caps: the walk goes through exactly the first
      `maxParts` parts of the listing, hands out partIds 1, 2, ... to the leaves among
      them in pre-order, keeps each list strictly increasing in partId and free of
      anything but those leaves, and places every one of them as `Placed` says. */
  lemma WalkPlacesEveryLeaf(root: Part, o: Options)
    ensures var s, table := Walk(root, o), Table(root, o);
            && s.parts == Min(|Entries(root, o)|, o.maxParts)
            && s.nextId == |table|
            && Sound(s, table)
  {
    ParseWentThrough([root], ROOT, BOTH, o, EMPTY);
    ParseSound([root], ROOT, BOTH, o, EMPTY, Table(root, o));
  }

  /** The message is found ambiguous if and only if one of the visited containers re-declares
      the boundary of a container around it, and then nothing is surfaced. */
  lemma ReuseClearsTheMessage(root: Part, o: Options)
    ensures Walk(root, o).ambiguous <==> Ambiguous(Entries(root, o), o.maxParts)
    ensures Ambiguous(Entries(root, o), o.maxParts)
        ==> ParseMessage(root, o) == Content([], [], [], {})
  {
    ParseWentThrough([root], ROOT, BOTH, o, EMPTY);
  }

  /** Exactly which leaves are lost: an inline leaf the walk visits is missing from all three
      lists if and only if earlier leaves of the other type, next to it or next to a container
      around it, have shut the list of its own type (for inline media, which an alternative
      puts among the attachments when they are its own children, both lists). */
  lemma LeafIsLostExactlyWhenShutOut(root: Part, o: Options, n: nat)
    requires 1 <= n <= Walk(root, o).nextId
    ensures n <= |Table(root, o)| && Table(root, o)[n - 1].Item?
    ensures var s, e := Walk(root, o), Table(root, o)[n - 1];
            n !in Ids(s.text) + Ids(s.html) + Ids(s.att) <==>
              && IsInline(e.leaf, e.index, e.kind)
              && (if e.leaf.ctype == "text/plain" then !e.live.text
                  else if e.leaf.ctype == "text/html" then !e.live.html
                  else e.kind != ALTERNATIVE && !e.live.text && !e.live.html)
  {
    WalkPlacesEveryLeaf(root, o);
    assert Placed(Table(root, o), n, Walk(root, o));
  }
}
