/** The three lists the flat walk fills, in closed form: by recursion over the tree alone,
    without shared lists, a counter or an early return. */
module MimeContents {
  import opened MimeTree
  import opened MimeWalk
  import opened MimePlacement
  import opened MimeAlternatives

  /** A visited leaf and the lists it ends up in. */
  datatype Slot = Slot(leaf: Leaf, text: bool, html: bool, att: bool)

  datatype Which = Text | Html | Attachments

  predicate In(slot: Slot, w: Which) {
    match w case Text => slot.text case Html => slot.html case Attachments => slot.att
  }

  predicate AnyIn(slots: seq<Slot>, w: Which) {
    slots != [] && (In(slots[0], w) || AnyIn(slots[1..], w))
  }

  function LeafSlot(e: Entry): Slot
    requires e.Item?
  {
    Slot(e.leaf, ToText(e), ToHtml(e), ToAttachments(e))
  }

  /** The slots of the leaves visited among the siblings from `i` on and beneath them, when
      `budget` more parts may be visited. */
  function Slots(parts: seq<Part>, i: nat, at: Place, live: Live, o: Options, budget: nat): seq<Slot>
    requires i <= |parts|
    decreases parts, |parts| - i
  {
    if at.depth > o.maxDepth || i == |parts| || budget == 0 then []
    else
      SlotsOf(parts, i, at, live, o, budget)
      + Slots(parts, i + 1, at, live, o, Sub(budget, |Head(parts, i, at, live, o)|))
  }

  function SlotsOf(parts: seq<Part>, i: nat, at: Place, live: Live, o: Options, budget: nat): seq<Slot>
    requires i < |parts| && budget > 0
    decreases parts, |parts| - i, 1
  {
    match parts[i]
    case Single(leaf) => [LeafSlot(Item(leaf, i, at.kind, at.alts, OpenAt(parts, i, at, live)))]
    case Multi(_, _, children) =>
      if Reuses(parts[i], at) then []
      else CallSlots(children, Below(parts[i], at), OpenAt(parts, i, at, live), o, budget - 1)
  }

  /** The slots of one call: a mirroring alternative shows in both lists what it added to only
      one. */
  function CallSlots(parts: seq<Part>, at: Place, live: Live, o: Options, budget: nat): seq<Slot>
    decreases parts, |parts| + 1
  {
    Settled(Slots(parts, 0, at, live, o, budget), Mirrors(parts, at, live, o, budget))
  }

  function Settled(slots: seq<Slot>, mirrors: bool): seq<Slot> {
    if mirrors && !AnyIn(slots, Text) then TextAsHtml(slots)
    else if mirrors && !AnyIn(slots, Html) then HtmlAsText(slots)
    else slots
  }

  function TextAsHtml(slots: seq<Slot>): seq<Slot> {
    if slots == [] then [] else [slots[0].(text := slots[0].html)] + TextAsHtml(slots[1..])
  }

  function HtmlAsText(slots: seq<Slot>): seq<Slot> {
    if slots == [] then [] else [slots[0].(html := slots[0].text)] + HtmlAsText(slots[1..])
  }

  /** The slots of a whole message. */
  function AllSlots(root: Part, o: Options): seq<Slot> {
    CallSlots([root], ROOT, BOTH, o, o.maxParts)
  }

  /** The entries of one list, each under the number of its slot. */
  function Picked(slots: seq<Slot>, from: nat, w: Which): seq<BodyPart> {
    if slots == [] then []
    else (if In(slots[0], w) then [BodyPart(from + 1, slots[0].leaf)] else []) + Picked(slots[1..], from + 1, w)
  }

  // ------------------------------------------------------------------
  // The walk computes them
  // ------------------------------------------------------------------

  lemma {:induction false} PickedConcat(a: seq<Slot>, b: seq<Slot>, from: nat, w: Which)
    ensures Picked(a + b, from, w) == Picked(a, from, w) + Picked(b, from + |a|, w)
    decreases a
  {
    if a == [] {
      assert a + b == b;
    } else {
      assert (a + b)[0] == a[0] && (a + b)[1..] == a[1..] + b;
      PickedConcat(a[1..], b, from + 1, w);
    }
  }

  lemma {:induction false} PickedIsEmpty(slots: seq<Slot>, from: nat, w: Which)
    ensures Picked(slots, from, w) == [] <==> !AnyIn(slots, w)
  {
    if slots != [] {
      PickedIsEmpty(slots[1..], from + 1, w);
    }
  }

  lemma {:induction false} TextAsHtmlPicks(slots: seq<Slot>, from: nat)
    ensures var t := TextAsHtml(slots);
            && |t| == |slots|
            && Picked(t, from, Text) == Picked(slots, from, Html)
            && Picked(t, from, Html) == Picked(slots, from, Html)
            && Picked(t, from, Attachments) == Picked(slots, from, Attachments)
  {
    if slots != [] {
      TextAsHtmlPicks(slots[1..], from + 1);
    }
  }

  lemma {:induction false} HtmlAsTextPicks(slots: seq<Slot>, from: nat)
    ensures var t := HtmlAsText(slots);
            && |t| == |slots|
            && Picked(t, from, Text) == Picked(slots, from, Text)
            && Picked(t, from, Html) == Picked(slots, from, Text)
            && Picked(t, from, Attachments) == Picked(slots, from, Attachments)
  {
    if slots != [] {
      HtmlAsTextPicks(slots[1..], from + 1);
    }
  }

  /** From `s` to `r` exactly the slots were added to the lists, in order and numbered on. */
  ghost predicate Added(s: State, r: State, slots: seq<Slot>) {
    && r.nextId == s.nextId + |slots|
    && r.text == s.text + Picked(slots, s.nextId, Text)
    && r.html == s.html + Picked(slots, s.nextId, Html)
    && r.att == s.att + Picked(slots, s.nextId, Attachments)
  }

  lemma AddedBoth(s: State, m: State, r: State, a: seq<Slot>, b: seq<Slot>)
    requires Added(s, m, a) && Added(m, r, b)
    ensures Added(s, r, a + b)
  {
    PickedConcat(a, b, s.nextId, Text);
    PickedConcat(a, b, s.nextId, Html);
    PickedConcat(a, b, s.nextId, Attachments);
  }

  lemma PickedOne(slot: Slot, from: nat, w: Which)
    ensures Picked([slot], from, w) == if In(slot, w) then [BodyPart(from + 1, slot.leaf)] else []
  {
    assert [slot][1..] == [];
  }

  /** What one leaf adds to each list. */
  lemma LeafRouted(s: State, leaf: Leaf, index: nat, at: Place, live: Live)
    requires at.Valid()
    ensures var r, slot := Emit(s, leaf, index, at, live).0, LeafSlot(Item(leaf, index, at.kind, at.alts, live));
            var p := BodyPart(s.nextId + 1, leaf);
            && r.nextId == s.nextId + 1
            && r.text == (if slot.text then s.text + [p] else s.text)
            && r.html == (if slot.html then s.html + [p] else s.html)
            && r.att == (if slot.att then s.att + [p] else s.att)
  {
  }

  lemma OneAdded(s: State, r: State, slot: Slot)
    requires r.nextId == s.nextId + 1
    requires var p := BodyPart(s.nextId + 1, slot.leaf);
             && r.text == (if slot.text then s.text + [p] else s.text)
             && r.html == (if slot.html then s.html + [p] else s.html)
             && r.att == (if slot.att then s.att + [p] else s.att)
    ensures Added(s, r, [slot])
  {
    PickedOne(slot, s.nextId, Text);
    PickedOne(slot, s.nextId, Html);
    PickedOne(slot, s.nextId, Attachments);
  }

  lemma LeafAdds(s: State, leaf: Leaf, index: nat, at: Place, live: Live)
    requires at.Valid()
    ensures Added(s, Emit(s, leaf, index, at, live).0, [LeafSlot(Item(leaf, index, at.kind, at.alts, live))])
  {
    LeafRouted(s, leaf, index, at, live);
    OneAdded(s, Emit(s, leaf, index, at, live).0, LeafSlot(Item(leaf, index, at.kind, at.alts, live)));
  }

  lemma {:induction false} VisitAdds(parts: seq<Part>, i: nat, at: Place, live: Live, o: Options, s: State)
    requires i < |parts| && at.depth <= o.maxDepth && s.parts < o.maxParts && at.Valid()
    ensures Added(s, Visit(parts, i, at, OpenAt(parts, i, at, live), o, s).0,
                  SlotsOf(parts, i, at, live, o, o.maxParts - s.parts))
    decreases parts, |parts| - i, 0
  {
    var now := OpenAt(parts, i, at, live);
    match parts[i]
    case Single(leaf) =>
      LeafAdds(s, leaf, i, at, now);
    case Multi(_, _, children) =>
      if !Reuses(parts[i], at) {
        ParseAdds(children, Below(parts[i], at), now, o, s.(parts := s.parts + 1));
      }
  }

  lemma {:induction false} LoopAdds(parts: seq<Part>, i: nat, at: Place, live: Live, o: Options, s: State)
    requires i <= |parts| && at.depth <= o.maxDepth && s.parts <= o.maxParts && at.Valid()
    ensures Added(s, Loop(parts, i, at, OpenAt(parts, i, at, live), o, s).state,
                  Slots(parts, i, at, live, o, o.maxParts - s.parts))
    decreases parts, |parts| - i
  {
    if i < |parts| && s.parts < o.maxParts {
      var m := Visit(parts, i, at, OpenAt(parts, i, at, live), o, s).0;
      OpenStep(parts, i, at, live, o, s);
      VisitSpends(parts, i, at, live, o, s);
      VisitAdds(parts, i, at, live, o, s);
      LoopAdds(parts, i + 1, at, live, o, m);
      AddedBoth(s, m, Loop(parts, i + 1, at, OpenAt(parts, i + 1, at, live), o, m).state,
                SlotsOf(parts, i, at, live, o, o.maxParts - s.parts),
                Slots(parts, i + 1, at, live, o, o.maxParts - m.parts));
    }
  }

  /** The tails a fallback copies. */
  lemma Tails(s: State, r: State, slots: seq<Slot>)
    requires Added(s, r, slots)
    ensures |s.text| <= |r.text| && r.text[|s.text|..] == Picked(slots, s.nextId, Text)
    ensures |s.html| <= |r.html| && r.html[|s.html|..] == Picked(slots, s.nextId, Html)
    ensures |s.text| == |r.text| <==> !AnyIn(slots, Text)
    ensures |s.html| == |r.html| <==> !AnyIn(slots, Html)
  {
    PickedIsEmpty(slots, s.nextId, Text);
    PickedIsEmpty(slots, s.nextId, Html);
  }

  /** What a fallback that runs on both lists makes of the slots added so far. */
  lemma FallbackSettles(s: State, r: State, at: Place, slots: seq<Slot>)
    requires Added(s, r, slots) && at.kind == ALTERNATIVE && |s.text| <= |r.text| && |s.html| <= |r.html|
    ensures Added(s, Fallback(r, at, BOTH, |s.text|, |s.html|), Settled(slots, true))
  {
    Tails(s, r, slots);
    if !AnyIn(slots, Text) {
      TextAsHtmlPicks(slots, s.nextId);
      assert r.text == s.text;
    } else if !AnyIn(slots, Html) {
      HtmlAsTextPicks(slots, s.nextId);
      assert r.html == s.html;
    }
  }

  lemma {:induction false} ParseAdds(parts: seq<Part>, at: Place, live: Live, o: Options, s: State)
    requires s.parts <= o.maxParts && at.Valid()
    ensures Added(s, Parse(parts, at, live, o, s), CallSlots(parts, at, live, o, o.maxParts - s.parts))
    decreases parts, |parts| + 1
  {
    if at.depth <= o.maxDepth {
      assert OpenAt(parts, 0, at, live) == live;
      LoopAdds(parts, 0, at, live, o, s);
      LoopEnds(parts, 0, at, live, o, s);
      if at.kind == ALTERNATIVE {
        DirectChildrenKeepLists(parts, 0, at, live, o, s);
      }
      Tails(s, Loop(parts, 0, at, live, o, s).state, Slots(parts, 0, at, live, o, o.maxParts - s.parts));
      if Mirrors(parts, at, live, o, o.maxParts - s.parts) {
        FallbackSettles(s, Loop(parts, 0, at, live, o, s).state, at,
                        Slots(parts, 0, at, live, o, o.maxParts - s.parts));
      }
    }
  }

  /** For every message and any caps the walk leaves in each list exactly the leaves whose
      slots say so, in order, each under its number. */
  lemma WalkFillsTheSlots(root: Part, o: Options)
    ensures var s, slots := Walk(root, o), AllSlots(root, o);
            && s.nextId == |slots|
            && s.text == Picked(slots, 0, Text)
            && s.html == Picked(slots, 0, Html)
            && s.att == Picked(slots, 0, Attachments)
  {
    ParseAdds([root], ROOT, BOTH, o, EMPTY);
  }

  // ------------------------------------------------------------------
  // Text and HTML below an alternative
  // ------------------------------------------------------------------

  /** A text/plain or text/html leaf that ends up in both lists. */
  predicate IsCrossed(slot: Slot) {
    slot.text && slot.html && (slot.leaf.ctype == "text/plain" || slot.leaf.ctype == "text/html")
  }

  predicate AnyCrossed(slots: seq<Slot>) {
    slots != [] && (IsCrossed(slots[0]) || AnyCrossed(slots[1..]))
  }

  /** A leaf of type `ctype` ends up in the list. */
  predicate AnyTyped(slots: seq<Slot>, w: Which, ctype: string) {
    slots != [] && ((In(slots[0], w) && slots[0].leaf.ctype == ctype) || AnyTyped(slots[1..], w, ctype))
  }

  function Other(w: Which): Which {
    if w == Text then Html else Text
  }

  function OwnType(w: Which): string {
    if w == Text then "text/plain" else "text/html"
  }

  predicate IsOpen(live: Live, w: Which) {
    if w == Text then live.text else live.html
  }

  /** An alternative entered with both lists open that comes to its end with one of them
      filled and the other one not. */
  predicate OneSided(parts: seq<Part>, at: Place, live: Live, o: Options, budget: nat) {
    && Mirrors(parts, at, live, o, budget)
    && var slots := Slots(parts, 0, at, live, o, budget); AnyIn(slots, Text) != AnyIn(slots, Html)
  }

  /** A one-sided alternative is visited among the siblings from `i` on or beneath them. */
  predicate Crosses(parts: seq<Part>, i: nat, at: Place, live: Live, o: Options, budget: nat)
    requires i <= |parts|
    decreases parts, |parts| - i
  {
    && at.depth <= o.maxDepth && i < |parts| && budget > 0
    && (|| CrossesIn(parts, i, at, live, o, budget)
        || Crosses(parts, i + 1, at, live, o, Sub(budget, |Head(parts, i, at, live, o)|)))
  }

  predicate CrossesIn(parts: seq<Part>, i: nat, at: Place, live: Live, o: Options, budget: nat)
    requires i < |parts| && budget > 0
    decreases parts, |parts| - i, 1
  {
    && parts[i].Multi? && !Reuses(parts[i], at)
    && CallCrosses(parts[i].children, Below(parts[i], at), OpenAt(parts, i, at, live), o, budget - 1)
  }

  /** The call itself is one-sided, or one beneath it is. */
  predicate CallCrosses(parts: seq<Part>, at: Place, live: Live, o: Options, budget: nat)
    decreases parts, |parts| + 1
  {
    OneSided(parts, at, live, o, budget) || Crosses(parts, 0, at, live, o, budget)
  }

  lemma {:induction false} AnyConcat(a: seq<Slot>, b: seq<Slot>)
    ensures forall w :: AnyIn(a + b, w) <==> AnyIn(a, w) || AnyIn(b, w)
    ensures forall w, c :: AnyTyped(a + b, w, c) <==> AnyTyped(a, w, c) || AnyTyped(b, w, c)
    ensures AnyCrossed(a + b) <==> AnyCrossed(a) || AnyCrossed(b)
    decreases a
  {
    if a == [] {
      assert a + b == b;
    } else {
      assert (a + b)[0] == a[0] && (a + b)[1..] == a[1..] + b;
      AnyConcat(a[1..], b);
    }
  }

  /** Whatever is copied: a text/html leaf in the text list is in the HTML list as well, and a
      text/plain leaf in the HTML list is in the text list as well. */
  predicate Kinds(slots: seq<Slot>) {
    slots != [] ==>
      && (slots[0].leaf.ctype == "text/html" && slots[0].text ==> slots[0].html)
      && (slots[0].leaf.ctype == "text/plain" && slots[0].html ==> slots[0].text)
      && Kinds(slots[1..])
  }

  lemma {:induction false} KindsConcat(a: seq<Slot>, b: seq<Slot>)
    requires Kinds(a) && Kinds(b)
    ensures Kinds(a + b)
    decreases a
  {
    if a == [] {
      assert a + b == b;
    } else {
      assert (a + b)[0] == a[0] && (a + b)[1..] == a[1..] + b;
      KindsConcat(a[1..], b);
    }
  }

  lemma {:induction false} KindsCross(slots: seq<Slot>)
    requires Kinds(slots)
    ensures AnyCrossed(slots) <==> AnyTyped(slots, Text, "text/html") || AnyTyped(slots, Html, "text/plain")
    ensures AnyCrossed(slots) ==> AnyIn(slots, Text) && AnyIn(slots, Html)
  {
    if slots != [] {
      KindsCross(slots[1..]);
    }
  }

  lemma {:induction false} CopiesCross(slots: seq<Slot>)
    ensures var t := TextAsHtml(slots);
            && Kinds(t) && (AnyIn(t, Text) <==> AnyIn(slots, Html)) && (AnyIn(t, Html) <==> AnyIn(slots, Html))
            && (AnyTyped(slots, Html, "text/html") ==> AnyCrossed(t))
            && (AnyCrossed(t) ==> AnyIn(slots, Html))
            && (AnyTyped(t, Html, "text/html") <==> AnyTyped(slots, Html, "text/html"))
    ensures var t := HtmlAsText(slots);
            && Kinds(t) && (AnyIn(t, Text) <==> AnyIn(slots, Text)) && (AnyIn(t, Html) <==> AnyIn(slots, Text))
            && (AnyTyped(slots, Text, "text/plain") ==> AnyCrossed(t))
            && (AnyCrossed(t) ==> AnyIn(slots, Text))
            && (AnyTyped(t, Text, "text/plain") <==> AnyTyped(slots, Text, "text/plain"))
  {
    if slots != [] {
      CopiesCross(slots[1..]);
    }
  }

  lemma LeafGetsNothing(e: Entry, w: Which)
    requires e.Item? && w != Attachments && !IsOpen(e.live, w)
    ensures !AnyIn([LeafSlot(e)], w)
  {
    OneSlot(LeafSlot(e));
  }

  /** A list shut in front of a sibling gets nothing from it on. */
  lemma {:induction false} ShutGetsNothing(
    parts: seq<Part>, i: nat, at: Place, live: Live, o: Options, budget: nat, w: Which)
    requires i <= |parts| && w != Attachments && !IsOpen(OpenAt(parts, i, at, live), w)
    ensures !AnyIn(Slots(parts, i, at, live, o, budget), w)
    decreases parts, |parts| - i, 1
  {
    if at.depth <= o.maxDepth && i < |parts| && budget > 0 {
      var left := Sub(budget, |Head(parts, i, at, live, o)|);
      StaysShut(parts, i, at, live, w);
      ShutGetsNothing(parts, i + 1, at, live, o, left, w);
      ShutGetsNothingIn(parts, i, at, live, o, budget, w);
      AnyConcat(SlotsOf(parts, i, at, live, o, budget), Slots(parts, i + 1, at, live, o, left));
    }
  }

  lemma {:induction false} ShutGetsNothingIn(
    parts: seq<Part>, i: nat, at: Place, live: Live, o: Options, budget: nat, w: Which)
    requires i < |parts| && budget > 0 && w != Attachments && !IsOpen(OpenAt(parts, i, at, live), w)
    ensures !AnyIn(SlotsOf(parts, i, at, live, o, budget), w)
    decreases parts, |parts| - i, 0
  {
    var now := OpenAt(parts, i, at, live);
    match parts[i]
    case Single(leaf) =>
      LeafGetsNothing(Item(leaf, i, at.kind, at.alts, now), w);
    case Multi(_, _, children) =>
      if !Reuses(parts[i], at) {
        var below := Below(parts[i], at);
        assert OpenAt(children, 0, below, now) == now;
        ShutGetsNothing(children, 0, below, now, o, budget - 1, w);
        assert CallSlots(children, below, now, o, budget - 1) == Slots(children, 0, below, now, o, budget - 1);
      }
  }

  lemma StaysShut(parts: seq<Part>, i: nat, at: Place, live: Live, w: Which)
    requires i < |parts| && w != Attachments && !IsOpen(OpenAt(parts, i, at, live), w)
    ensures !IsOpen(OpenAt(parts, i + 1, at, live), w)
  {
  }

  lemma OneSlot(slot: Slot)
    ensures forall w :: AnyIn([slot], w) <==> In(slot, w)
    ensures forall w, c :: AnyTyped([slot], w, c) <==> In(slot, w) && slot.leaf.ctype == c
    ensures AnyCrossed([slot]) <==> IsCrossed(slot)
    ensures Kinds([slot]) <==> (slot.leaf.ctype == "text/html" && slot.text ==> slot.html)
                               && (slot.leaf.ctype == "text/plain" && slot.html ==> slot.text)
  {
    assert [slot][1..] == [];
  }

  lemma PlainIsNotHtml()
    ensures "text/plain" != "text/html"
  {
    assert "text/plain"[5] != "text/html"[5];
  }

  /** While the other list is open, one list gets something only together with the other one
      or from a leaf of its own type. */
  ghost predicate Balanced(slots: seq<Slot>, w: Which) {
    AnyIn(slots, w) ==> AnyIn(slots, Other(w)) || AnyTyped(slots, w, OwnType(w))
  }

  /** A list is shut from one sibling to the next exactly by a leaf of the other type. */
  lemma ShutterIs(parts: seq<Part>, i: nat, at: Place, live: Live, w: Which)
    requires i < |parts| && w != Attachments && IsOpen(OpenAt(parts, i, at, live), Other(w))
    ensures IsOpen(OpenAt(parts, i + 1, at, live), Other(w)) <==> !Shuts(parts, i, at, OwnType(w))
  {
    if Shuts(parts, i, at, OwnType(w)) {
      assert ShutBefore(parts, i + 1, at, OwnType(w));
    }
  }

  /** The routes of one leaf below an alternative. */
  lemma LeafRoutes(e: Entry)
    requires e.Item? && e.alts > 0
    ensures e.leaf.ctype == "text/html" ==> !ToText(e)
    ensures e.leaf.ctype == "text/plain" ==> !ToHtml(e)
  {
    PlainIsNotHtml();
  }

  lemma LeafIsBalanced(parts: seq<Part>, i: nat, at: Place, live: Live, o: Options, budget: nat, w: Which)
    requires i < |parts| && parts[i].Single? && budget > 0 && at.Valid() && at.alts > 0 && w != Attachments
    requires IsOpen(OpenAt(parts, i, at, live), Other(w))
    requires Shuts(parts, i, at, OwnType(w)) ==> IsOpen(OpenAt(parts, i, at, live), w)
    ensures var first := SlotsOf(parts, i, at, live, o, budget);
            && Balanced(first, w)
            && (Shuts(parts, i, at, OwnType(w)) ==> AnyTyped(first, w, OwnType(w)))
  {
    var slot := LeafSlot(Item(parts[i].leaf, i, at.kind, at.alts, OpenAt(parts, i, at, live)));
    PlainIsNotHtml();
    OneSlot(slot);
    assert SlotsOf(parts, i, at, live, o, budget) == [slot];
  }

  lemma BalancedBoth(a: seq<Slot>, b: seq<Slot>, w: Which)
    requires Balanced(a, w) && Balanced(b, w)
    ensures Balanced(a + b, w)
  {
    AnyConcat(a, b);
  }

  lemma {:induction false} OpenListShows(
    parts: seq<Part>, i: nat, at: Place, live: Live, o: Options, budget: nat, w: Which)
    requires i <= |parts| && at.Valid() && at.alts > 0
    requires w != Attachments && IsOpen(OpenAt(parts, i, at, live), Other(w))
    ensures Balanced(Slots(parts, i, at, live, o, budget), w)
    decreases parts, |parts| - i, 1
  {
    if at.depth <= o.maxDepth && i < |parts| && budget > 0 {
      var left := Sub(budget, |Head(parts, i, at, live, o)|);
      var first, rest := SlotsOf(parts, i, at, live, o, budget), Slots(parts, i + 1, at, live, o, left);
      ShutterIs(parts, i, at, live, w);
      if !IsOpen(OpenAt(parts, i, at, live), w) {
        ShutGetsNothing(parts, i, at, live, o, budget, w);
      } else if Shuts(parts, i, at, OwnType(w)) {
        LeafIsBalanced(parts, i, at, live, o, budget, w);
        AnyConcat(first, rest);
      } else {
        OpenListShows(parts, i + 1, at, live, o, left, w);
        OpenListShowsIn(parts, i, at, live, o, budget, w);
        BalancedBoth(first, rest, w);
      }
    }
  }

  lemma {:induction false} OpenListShowsIn(
    parts: seq<Part>, i: nat, at: Place, live: Live, o: Options, budget: nat, w: Which)
    requires i < |parts| && budget > 0 && at.Valid() && at.alts > 0
    requires w != Attachments && OpenAt(parts, i, at, live) == BOTH
    ensures Balanced(SlotsOf(parts, i, at, live, o, budget), w)
    decreases parts, |parts| - i, 0
  {
    match parts[i]
    case Single(_) =>
      LeafIsBalanced(parts, i, at, live, o, budget, w);
    case Multi(_, _, children) =>
      if !Reuses(parts[i], at) {
        var below := Below(parts[i], at);
        assert OpenAt(children, 0, below, BOTH) == BOTH;
        OpenListShows(children, 0, below, BOTH, o, budget - 1, w);
        SettledIsBalanced(Slots(children, 0, below, BOTH, o, budget - 1),
                          Mirrors(children, below, BOTH, o, budget - 1), w);
      }
  }

  lemma SettledIsBalanced(slots: seq<Slot>, mirrors: bool, w: Which)
    requires w != Attachments && Balanced(slots, w)
    ensures Balanced(Settled(slots, mirrors), w)
  {
    CopiesCross(slots);
  }

  lemma {:induction false} CrossedExactly(parts: seq<Part>, i: nat, at: Place, live: Live, o: Options, budget: nat)
    requires i <= |parts| && at.Valid() && at.alts > 0
    ensures Kinds(Slots(parts, i, at, live, o, budget))
    ensures AnyCrossed(Slots(parts, i, at, live, o, budget)) <==> Crosses(parts, i, at, live, o, budget)
    decreases parts, |parts| - i
  {
    if at.depth <= o.maxDepth && i < |parts| && budget > 0 {
      var left := Sub(budget, |Head(parts, i, at, live, o)|);
      var first, rest := SlotsOf(parts, i, at, live, o, budget), Slots(parts, i + 1, at, live, o, left);
      CrossedExactly(parts, i + 1, at, live, o, left);
      if parts[i].Single? {
        var e := Item(parts[i].leaf, i, at.kind, at.alts, OpenAt(parts, i, at, live));
        LeafRoutes(e);
        OneSlot(LeafSlot(e));
        assert Kinds(first) && !AnyCrossed(first);
      } else if !Reuses(parts[i], at) {
        CallCrossedExactly(parts[i].children, Below(parts[i], at), OpenAt(parts, i, at, live), o, budget - 1);
      }
      KindsConcat(first, rest);
      AnyConcat(first, rest);
    }
  }

  lemma {:induction false} CallCrossedExactly(parts: seq<Part>, at: Place, live: Live, o: Options, budget: nat)
    requires at.Valid() && at.alts > 0
    ensures Kinds(CallSlots(parts, at, live, o, budget))
    ensures AnyCrossed(CallSlots(parts, at, live, o, budget)) <==> CallCrosses(parts, at, live, o, budget)
    decreases parts, |parts| + 1
  {
    var slots := Slots(parts, 0, at, live, o, budget);
    CrossedExactly(parts, 0, at, live, o, budget);
    KindsCross(slots);
    CopiesCross(slots);
    if Mirrors(parts, at, live, o, budget) {
      assert OpenAt(parts, 0, at, live) == live;
      OpenListShows(parts, 0, at, live, o, budget, Text);
      OpenListShows(parts, 0, at, live, o, budget, Html);
    }
  }

  /** From position `from` on the list has a leaf of type `ctype`. */
  ghost predicate HasType(list: seq<BodyPart>, from: nat, ctype: string) {
    exists j :: from <= j < |list| && list[j].leaf.ctype == ctype
  }

  lemma HasTypeCons(p: BodyPart, rest: seq<BodyPart>, ctype: string)
    ensures HasType([p] + rest, 0, ctype) <==> p.leaf.ctype == ctype || HasType(rest, 0, ctype)
  {
    AddedTypes([p], rest, ctype);
    assert ([p] + rest)[0] == p;
  }

  lemma {:induction false} PickedTypes(slots: seq<Slot>, from: nat, w: Which, ctype: string)
    ensures AnyTyped(slots, w, ctype) <==> HasType(Picked(slots, from, w), 0, ctype)
  {
    if slots != [] {
      PickedTypes(slots[1..], from + 1, w, ctype);
      var rest := Picked(slots[1..], from + 1, w);
      HasTypeCons(BodyPart(from + 1, slots[0].leaf), rest, ctype);
      assert !In(slots[0], w) ==> Picked(slots, from, w) == rest;
    }
  }

  lemma AddedTypes(before: seq<BodyPart>, added: seq<BodyPart>, ctype: string)
    ensures HasType(added, 0, ctype) <==> HasType(before + added, |before|, ctype)
  {
    var all := before + added;
    assert forall j :: 0 <= j < |added| ==> all[|before| + j] == added[j];
    if HasType(all, |before|, ctype) {
      var j :| |before| <= j < |all| && all[j].leaf.ctype == ctype;
      assert added[j - |before|] == all[j];
    }
  }

  /** Exactly when a call below an alternative, however alternatives are nested in it, keeps
      text/html out of the text list and text/plain out of the HTML list: when no alternative
      it visits comes to its end one-sided. */
  lemma TypesStayApartExactly(parts: seq<Part>, at: Place, live: Live, o: Options, s: State)
    requires at.Valid() && at.alts > 0 && s.parts <= o.maxParts
    ensures Apart(s, Parse(parts, at, live, o, s)) <==> !CallCrosses(parts, at, live, o, o.maxParts - s.parts)
  {
    var r, slots := Parse(parts, at, live, o, s), CallSlots(parts, at, live, o, o.maxParts - s.parts);
    ParseAdds(parts, at, live, o, s);
    CallCrossedExactly(parts, at, live, o, o.maxParts - s.parts);
    KindsCross(slots);
    PickedTypes(slots, s.nextId, Text, "text/html");
    PickedTypes(slots, s.nextId, Html, "text/plain");
    AddedTypes(s.text, Picked(slots, s.nextId, Text), "text/html");
    AddedTypes(s.html, Picked(slots, s.nextId, Html), "text/plain");
    assert Apart(s, r) <==> !HasType(r.text, |s.text|, "text/html") && !HasType(r.html, |s.html|, "text/plain");
  }
}
