/** How `multipart/alternative` keeps the two body lists in step. */
module MimeAlternatives {
  import opened MimeTree
  import opened MimeWalk
  import opened MimePlacement

  // ------------------------------------------------------------------
  // Both lists grow or neither does
  // ------------------------------------------------------------------

  /** From `s` to `r` both body lists grew or neither did. */
  ghost predicate InStep(s: State, r: State) {
    |s.text| < |r.text| <==> |s.html| < |r.html|
  }

  /** The cap lets the loop over these siblings come to its end when `budget` more parts may
      be visited, that is, it is not met in front of one of them. */
  predicate Ends(parts: seq<Part>, i: nat, at: Place, live: Live, o: Options, budget: nat)
    requires i <= |parts|
    decreases |parts| - i
  {
    i == |parts| || (budget > 0 && Ends(parts, i + 1, at, live, o, Sub(budget, |Head(parts, i, at, live, o)|)))
  }

  lemma {:induction false} LoopEnds(parts: seq<Part>, i: nat, at: Place, live: Live, o: Options, s: State)
    requires i <= |parts| && at.depth <= o.maxDepth && s.parts <= o.maxParts
    ensures Loop(parts, i, at, OpenAt(parts, i, at, live), o, s).stopped
        <==> !Ends(parts, i, at, live, o, o.maxParts - s.parts)
    decreases |parts| - i
  {
    if i < |parts| && s.parts < o.maxParts {
      OpenStep(parts, i, at, live, o, s);
      VisitSpends(parts, i, at, live, o, s);
      LoopEnds(parts, i + 1, at, live, o, Visit(parts, i, at, OpenAt(parts, i, at, live), o, s).0);
    }
  }

  /** The loop over an alternative's own children shuts no list, whatever the calls
      beneath it do to their copies. */
  lemma {:induction false} DirectChildrenKeepLists(
    parts: seq<Part>, i: nat, at: Place, live: Live, o: Options, s: State)
    requires i <= |parts| && at.kind == ALTERNATIVE
    ensures Loop(parts, i, at, live, o, s).live == live
    decreases |parts| - i
  {
    if i < |parts| && s.parts < o.maxParts {
      DirectChildrenKeepLists(parts, i + 1, at, live, o, Visit(parts, i, at, live, o, s).0);
    }
  }

  /** A call of the walk directly on an alternative, with both lists open on entry, whose own
      loop is not cut, whatever is cut, shut or nested beneath it. */
  lemma AlternativeInStep(parts: seq<Part>, at: Place, o: Options, s: State)
    requires at.kind == ALTERNATIVE && s.parts <= o.maxParts
    requires Ends(parts, 0, at, BOTH, o, o.maxParts - s.parts)
    ensures InStep(s, Parse(parts, at, BOTH, o, s))
  {
    if at.depth <= o.maxDepth {
      assert OpenAt(parts, 0, at, BOTH) == BOTH;
      LoopEnds(parts, 0, at, BOTH, o, s);
      LoopGrows(parts, 0, at, BOTH, o, s);
      DirectChildrenKeepLists(parts, 0, at, BOTH, o, s);
    }
  }

  // ------------------------------------------------------------------
  // Which bodies are filled
  // ------------------------------------------------------------------

  /** Where the walk puts a visited leaf, and whether an alternative around it, entered with
      both lists open, comes to its end and so mirrors a list left behind. */
  datatype Mark = Mark(text: bool, html: bool, mirrored: bool)

  function Marks(parts: seq<Part>, i: nat, at: Place, live: Live, mirrored: bool, o: Options, budget: nat): seq<Mark>
    requires i <= |parts|
    decreases parts, |parts| - i
  {
    if at.depth > o.maxDepth || i == |parts| || budget == 0 then []
    else
      MarksOf(parts, i, at, live, mirrored, o, budget)
      + Marks(parts, i + 1, at, live, mirrored, o, Sub(budget, |Head(parts, i, at, live, o)|))
  }

  function MarksOf(parts: seq<Part>, i: nat, at: Place, live: Live, mirrored: bool, o: Options, budget: nat): seq<Mark>
    requires i < |parts| && budget > 0
    decreases parts, |parts| - i, 0
  {
    var now := OpenAt(parts, i, at, live);
    match parts[i]
    case Single(leaf) =>
      var e := Item(leaf, i, at.kind, at.alts, now);
      [Mark(ToText(e), ToHtml(e), mirrored)]
    case Multi(_, _, children) =>
      if Reuses(parts[i], at) then []
      else
        var below := Below(parts[i], at);
        Marks(children, 0, below, now, mirrored || Mirrors(children, below, now, o, budget - 1), o, budget - 1)
  }

  /** A container that fills both lists when it fills one: an alternative entered with both
      open, and not cut in its own loop. */
  predicate Mirrors(children: seq<Part>, at: Place, live: Live, o: Options, budget: nat) {
    at.kind == ALTERNATIVE && live == BOTH && Ends(children, 0, at, live, o, budget)
  }

  /** The marks of all the leaves the walk of `root` visits. */
  function AllMarks(root: Part, o: Options): seq<Mark> {
    Marks([root], 0, ROOT, BOTH, false, o, o.maxParts)
  }

  predicate FillsText(m: Mark) {
    m.text || (m.mirrored && m.html)
  }

  predicate FillsHtml(m: Mark) {
    m.html || (m.mirrored && m.text)
  }

  predicate AnyText(marks: seq<Mark>) {
    exists j :: 0 <= j < |marks| && FillsText(marks[j])
  }

  predicate AnyHtml(marks: seq<Mark>) {
    exists j :: 0 <= j < |marks| && FillsHtml(marks[j])
  }

  lemma AnyConcat(a: seq<Mark>, b: seq<Mark>)
    ensures AnyText(a + b) <==> AnyText(a) || AnyText(b)
    ensures AnyHtml(a + b) <==> AnyHtml(a) || AnyHtml(b)
  {
    var all := a + b;
    assert forall j :: 0 <= j < |a| ==> all[j] == a[j];
    assert forall j :: 0 <= j < |b| ==> all[|a| + j] == b[j];
  }

  /** The lists grew as `marks` say. */
  ghost predicate Filled(s: State, r: State, marks: seq<Mark>) {
    && (|s.text| < |r.text| <==> AnyText(marks))
    && (|s.html| < |r.html| <==> AnyHtml(marks))
  }

  lemma FilledBoth(s: State, m: State, r: State, a: seq<Mark>, b: seq<Mark>)
    requires Filled(s, m, a) && Filled(m, r, b)
    requires |s.text| <= |m.text| <= |r.text| && |s.html| <= |m.html| <= |r.html|
    ensures Filled(s, r, a + b)
  {
    AnyConcat(a, b);
  }

  /** The same marks, all mirrored. */
  ghost predicate AllMirrored(marks: seq<Mark>, mirrored: seq<Mark>) {
    && |marks| == |mirrored|
    && forall j :: 0 <= j < |marks| ==> mirrored[j] == marks[j].(mirrored := true)
  }

  lemma MirroredConcat(a: seq<Mark>, a': seq<Mark>, b: seq<Mark>, b': seq<Mark>)
    requires AllMirrored(a, a') && AllMirrored(b, b')
    ensures AllMirrored(a + b, a' + b')
  {
  }

  lemma {:induction false} MarksMirrored(
    parts: seq<Part>, i: nat, at: Place, live: Live, m: bool, o: Options, budget: nat)
    requires i <= |parts|
    ensures AllMirrored(Marks(parts, i, at, live, m, o, budget), Marks(parts, i, at, live, true, o, budget))
    decreases parts, |parts| - i, 1
  {
    if at.depth <= o.maxDepth && i < |parts| && budget > 0 {
      var left := Sub(budget, |Head(parts, i, at, live, o)|);
      MarksMirroredIn(parts, i, at, live, m, o, budget);
      MarksMirrored(parts, i + 1, at, live, m, o, left);
      MirroredConcat(MarksOf(parts, i, at, live, m, o, budget), MarksOf(parts, i, at, live, true, o, budget),
                     Marks(parts, i + 1, at, live, m, o, left), Marks(parts, i + 1, at, live, true, o, left));
    }
  }

  lemma {:induction false} MarksMirroredIn(
    parts: seq<Part>, i: nat, at: Place, live: Live, m: bool, o: Options, budget: nat)
    requires i < |parts| && budget > 0
    ensures AllMirrored(MarksOf(parts, i, at, live, m, o, budget), MarksOf(parts, i, at, live, true, o, budget))
    decreases parts, |parts| - i, 0
  {
    if parts[i].Multi? && !Reuses(parts[i], at) {
      var children, below, now := parts[i].children, Below(parts[i], at), OpenAt(parts, i, at, live);
      MarksMirrored(children, 0, below, now, m || Mirrors(children, below, now, o, budget - 1), o, budget - 1);
    }
  }

  lemma MirroredFillsBoth(marks: seq<Mark>, mirrored: seq<Mark>)
    requires AllMirrored(marks, mirrored)
    ensures AnyText(mirrored) <==> AnyText(marks) || AnyHtml(marks)
    ensures AnyHtml(mirrored) <==> AnyText(marks) || AnyHtml(marks)
  {
  }

  lemma {:induction false} VisitFills(parts: seq<Part>, i: nat, at: Place, live: Live, o: Options, s: State)
    requires i < |parts| && at.depth <= o.maxDepth && s.parts < o.maxParts && at.Valid()
    ensures Filled(s, Visit(parts, i, at, OpenAt(parts, i, at, live), o, s).0,
                   MarksOf(parts, i, at, live, false, o, o.maxParts - s.parts))
    decreases parts, |parts| - i, 0
  {
    var now := OpenAt(parts, i, at, live);
    match parts[i]
    case Single(leaf) =>
      LeafFills(s, leaf, i, at, now);
    case Multi(_, _, children) =>
      if !Reuses(parts[i], at) {
        ParseFills(children, Below(parts[i], at), now, o, s.(parts := s.parts + 1));
      }
  }

  lemma LeafFills(s: State, leaf: Leaf, index: nat, at: Place, live: Live)
    requires at.Valid()
    ensures var e := Item(leaf, index, at.kind, at.alts, live);
            Filled(s, Emit(s, leaf, index, at, live).0, [Mark(ToText(e), ToHtml(e), false)])
  {
    var e := Item(leaf, index, at.kind, at.alts, live);
    var m := Mark(ToText(e), ToHtml(e), false);
    assert [m][0] == m;
  }

  lemma {:induction false} LoopFills(parts: seq<Part>, i: nat, at: Place, live: Live, o: Options, s: State)
    requires i <= |parts| && at.depth <= o.maxDepth && s.parts <= o.maxParts && at.Valid()
    ensures Filled(s, Loop(parts, i, at, OpenAt(parts, i, at, live), o, s).state,
                   Marks(parts, i, at, live, false, o, o.maxParts - s.parts))
    decreases parts, |parts| - i
  {
    if i < |parts| && s.parts < o.maxParts {
      var budget := o.maxParts - s.parts;
      var m := Visit(parts, i, at, OpenAt(parts, i, at, live), o, s).0;
      OpenStep(parts, i, at, live, o, s);
      VisitSpends(parts, i, at, live, o, s);
      VisitFills(parts, i, at, live, o, s);
      LoopFills(parts, i + 1, at, live, o, m);
      FilledBoth(s, m, Loop(parts, i + 1, at, OpenAt(parts, i + 1, at, live), o, m).state,
                 MarksOf(parts, i, at, live, false, o, budget),
                 Marks(parts, i + 1, at, live, false, o, o.maxParts - m.parts));
    } else {
      assert !AnyText([]) && !AnyHtml([]);
    }
  }

  lemma {:induction false} ParseFills(parts: seq<Part>, at: Place, live: Live, o: Options, s: State)
    requires s.parts <= o.maxParts && at.Valid()
    ensures var budget := o.maxParts - s.parts;
            Filled(s, Parse(parts, at, live, o, s),
                   Marks(parts, 0, at, live, Mirrors(parts, at, live, o, budget), o, budget))
    decreases parts, |parts| + 1
  {
    if at.depth <= o.maxDepth {
      var budget := o.maxParts - s.parts;
      assert OpenAt(parts, 0, at, live) == live;
      LoopFills(parts, 0, at, live, o, s);
      LoopEnds(parts, 0, at, live, o, s);
      LoopGrows(parts, 0, at, live, o, s);
      if at.kind == ALTERNATIVE {
        DirectChildrenKeepLists(parts, 0, at, live, o, s);
      }
      MarksMirrored(parts, 0, at, live, false, o, budget);
      MirroredFillsBoth(Marks(parts, 0, at, live, false, o, budget), Marks(parts, 0, at, live, true, o, budget));
    }
  }

  /** For every message and any caps: a body is filled if and only if some visited leaf is
      put into it, or into the other one beneath a mirroring alternative. */
  lemma BodiesAreFilledExactly(root: Part, o: Options)
    ensures Walk(root, o).text != [] <==> AnyText(AllMarks(root, o))
    ensures Walk(root, o).html != [] <==> AnyHtml(AllMarks(root, o))
  {
    ParseFills([root], ROOT, BOTH, o, EMPTY);
  }

  /** Exactly when a message has only one of the bodies: some visited leaf is put into its
      list, none into the other one, and no mirroring alternative surrounds one that is. */
  lemma OneBodyExactly(root: Part, o: Options)
    ensures var s, marks := Walk(root, o), AllMarks(root, o);
            && (s.html != [] && s.text == [] <==>
                  && (exists j :: 0 <= j < |marks| && marks[j].html)
                  && (forall j :: 0 <= j < |marks| ==> !marks[j].text && !(marks[j].html && marks[j].mirrored)))
            && (s.text != [] && s.html == [] <==>
                  && (exists j :: 0 <= j < |marks| && marks[j].text)
                  && (forall j :: 0 <= j < |marks| ==> !marks[j].html && !(marks[j].text && marks[j].mirrored)))
  {
    BodiesAreFilledExactly(root, o);
    var marks := AllMarks(root, o);
    assert forall j :: 0 <= j < |marks| ==>
             (FillsText(marks[j]) <==> marks[j].text || (marks[j].html && marks[j].mirrored));
    assert forall j :: 0 <= j < |marks| ==>
             (FillsHtml(marks[j]) <==> marks[j].html || (marks[j].text && marks[j].mirrored));
  }

  // ------------------------------------------------------------------
  // Messages whose bodies stay in step
  // ------------------------------------------------------------------

  /** The part cap is met in front of an own child, other than the first, of an outermost
      alternative among these siblings or beneath them. */
  predicate StoppedMidway(parts: seq<Part>, i: nat, at: Place, o: Options, budget: nat)
    requires i <= |parts|
    decreases parts, |parts| - i
  {
    && at.depth <= o.maxDepth && i < |parts| && budget > 0
    && (|| (parts[i].Multi? && !Reuses(parts[i], at) &&
            var below := Below(parts[i], at);
            if below.kind == ALTERNATIVE
            then below.depth <= o.maxDepth && budget > 1 && !Ends(parts[i].children, 0, below, BOTH, o, budget - 1)
            else StoppedMidway(parts[i].children, 0, below, o, budget - 1))
        || StoppedMidway(parts, i + 1, at, o, Sub(budget, |Head(parts, i, at, BOTH, o)|)))
  }

  ghost predicate Balanced(marks: seq<Mark>) {
    forall j :: 0 <= j < |marks| ==> (FillsText(marks[j]) <==> FillsHtml(marks[j]))
  }

  lemma {:induction false} MarksBalanced(parts: seq<Part>, i: nat, at: Place, o: Options, budget: nat)
    requires i <= |parts| && at.Valid() && at.alts == 0
    requires !StoppedMidway(parts, i, at, o, budget)
    ensures Balanced(Marks(parts, i, at, BOTH, false, o, budget))
    decreases parts, |parts| - i
  {
    if at.depth <= o.maxDepth && i < |parts| && budget > 0 {
      MarksBalanced(parts, i + 1, at, o, Sub(budget, |Head(parts, i, at, BOTH, o)|));
      assert OpenAt(parts, i, at, BOTH) == BOTH;
      match parts[i]
      case Single(leaf) =>
      case Multi(_, _, children) =>
        if !Reuses(parts[i], at) {
          var below := Below(parts[i], at);
          if below.kind == ALTERNATIVE {
            MarksMirrored(children, 0, below, BOTH, true, o, budget - 1);
            assert below.depth <= o.maxDepth && budget > 1 ==> Mirrors(children, below, BOTH, o, budget - 1);
            assert Balanced(MarksOf(parts, i, at, BOTH, false, o, budget));
          } else {
            MarksBalanced(children, 0, below, o, budget - 1);
          }
        }
    }
  }

  /** Unless the cap is met midway through an outermost alternative, a message has a text body
      if and only if it has an HTML body. */
  lemma BodiesAreBothEmptyOrNeither(root: Part, o: Options)
    requires !StoppedMidway([root], 0, ROOT, o, o.maxParts)
    ensures Walk(root, o).text == [] <==> Walk(root, o).html == []
    ensures ParseMessage(root, o).text == [] <==> ParseMessage(root, o).html == []
  {
    MarksBalanced([root], 0, ROOT, o, o.maxParts);
    BodiesAreFilledExactly(root, o);
  }

  lemma {:induction false} UncutEnds(parts: seq<Part>, i: nat, at: Place, live: Live, o: Options, budget: nat)
    requires i <= |parts| && at.depth <= o.maxDepth
    requires |Listing(parts, i, at, live, o)| <= budget
    ensures Ends(parts, i, at, live, o, budget)
    decreases |parts| - i
  {
    if i < |parts| {
      UncutEnds(parts, i + 1, at, live, o, Sub(budget, |Head(parts, i, at, live, o)|));
    }
  }

  lemma {:induction false} UncutIsNotStopped(parts: seq<Part>, i: nat, at: Place, o: Options, budget: nat)
    requires i <= |parts| && at.Valid() && at.alts == 0
    requires |Listing(parts, i, at, BOTH, o)| <= budget
    ensures !StoppedMidway(parts, i, at, o, budget)
    decreases parts, |parts| - i
  {
    if at.depth <= o.maxDepth && i < |parts| {
      UncutIsNotStopped(parts, i + 1, at, o, Sub(budget, |Head(parts, i, at, BOTH, o)|));
      assert OpenAt(parts, i, at, BOTH) == BOTH;
      if parts[i].Multi? && !Reuses(parts[i], at) {
        var below := Below(parts[i], at);
        if below.kind != ALTERNATIVE {
          UncutIsNotStopped(parts[i].children, 0, below, o, budget - 1);
        } else if below.depth <= o.maxDepth {
          UncutEnds(parts[i].children, 0, below, BOTH, o, budget - 1);
        }
      }
    }
  }

  /** In particular on every message the part cap does not cut. */
  lemma UncutBodiesAreInStep(root: Part, o: Options)
    requires |Entries(root, o)| <= o.maxParts
    ensures Walk(root, o).text == [] <==> Walk(root, o).html == []
  {
    UncutIsNotStopped([root], 0, ROOT, o, o.maxParts);
    BodiesAreBothEmptyOrNeither(root, o);
  }

  function PlainLeaf(ctype: string): Part {
    Single(Leaf(ctype, "", "", "", false))
  }

  /** The cap matters: stopped right after its HTML child, an alternative returns
      without the fallback, and the message has an HTML body but no text body. */
  lemma CutAlternativeLosesStep()
    ensures var root := Multi("alternative", "", [PlainLeaf("text/html"), PlainLeaf("text/plain")]);
            var s := Walk(root, Options(100, 2));
            s.text == [] && |s.html| == 1
  {
    var o := Options(100, 2);
    var children := [PlainLeaf("text/html"), PlainLeaf("text/plain")];
    var root := Multi("alternative", "", children);
    var at := Below(root, ROOT);
    var s1 := EMPTY.(parts := 1);
    var s2 := Emit(s1, children[0].leaf, 0, at, BOTH).0;
    assert Visit(children, 0, at, BOTH, o, s1) == (s2, BOTH);
    assert Loop(children, 1, at, BOTH, o, s2) == Outcome(s2, BOTH, true);
    assert Parse(children, at, BOTH, o, s1) == s2;
    assert Visit([root], 0, ROOT, BOTH, o, EMPTY) == (s2, BOTH);
    assert Loop([root], 1, ROOT, BOTH, o, s2) == Outcome(s2, BOTH, false);
  }

  // ------------------------------------------------------------------
  // Text and HTML stay apart below an alternative
  // ------------------------------------------------------------------

  /** No container beneath sibling `i` or a later one opens another alternative. */
  predicate NoAlternative(parts: seq<Part>, i: nat)
    requires i <= |parts|
    decreases parts, |parts| - i
  {
    i < |parts| ==>
      && (parts[i].Multi? ==> parts[i].subtype != ALTERNATIVE && NoAlternative(parts[i].children, 0))
      && NoAlternative(parts, i + 1)
  }

  /** What was added to the HTML list is not text/plain and what was added to the text
      list is not text/html. */
  ghost predicate Apart(s: State, r: State) {
    && |s.text| <= |r.text| && |s.html| <= |r.html|
    && (forall j :: |s.text| <= j < |r.text| ==> r.text[j].leaf.ctype != "text/html")
    && (forall j :: |s.html| <= j < |r.html| ==> r.html[j].leaf.ctype != "text/plain")
  }

  lemma ApartBoth(s: State, m: State, r: State)
    requires Apart(s, m) && Apart(m, r) && Grows(m, r)
    ensures Apart(s, r)
  {
    assert forall j :: |s.text| <= j < |m.text| ==> r.text[j] == m.text[j];
    assert forall j :: |s.html| <= j < |m.html| ==> r.html[j] == m.html[j];
  }

  lemma {:induction false} VisitApart(parts: seq<Part>, i: nat, at: Place, live: Live, o: Options, s: State)
    requires i < |parts| && at.alts > 0 && NoAlternative(parts, i)
    ensures Apart(s, Visit(parts, i, at, live, o, s).0)
    decreases parts, |parts| - i, 0
  {
    match parts[i]
    case Single(leaf) =>
    case Multi(_, _, children) =>
      var s1 := s.(parts := s.parts + 1);
      var below := Below(parts[i], at);
      assert |"mixed"| != |ALTERNATIVE|;
      if !Reuses(parts[i], at) && below.depth <= o.maxDepth {
        LoopApart(children, 0, below, live, o, s1);
        assert Apart(s1, Parse(children, below, live, o, s1));
      }
  }

  lemma {:induction false} LoopApart(parts: seq<Part>, i: nat, at: Place, live: Live, o: Options, s: State)
    requires i <= |parts| && at.alts > 0 && NoAlternative(parts, i)
    ensures Apart(s, Loop(parts, i, at, live, o, s).state)
    decreases parts, |parts| - i
  {
    if i < |parts| && s.parts < o.maxParts {
      var (s', live') := Visit(parts, i, at, live, o, s);
      VisitApart(parts, i, at, live, o, s);
      LoopApart(parts, i + 1, at, live', o, s');
      LoopGrows(parts, i + 1, at, live', o, s');
      ApartBoth(s, s', Loop(parts, i + 1, at, live', o, s').state);
    }
  }

  /** An alternative without a nested one either keeps the two types apart, or adds
      the very same parts to both lists because it held only one of them. */
  lemma AlternativeSeparatesOrMirrors(parts: seq<Part>, at: Place, o: Options, s: State)
    requires at.kind == ALTERNATIVE && at.Valid() && NoAlternative(parts, 0)
    ensures var r := Parse(parts, at, BOTH, o, s);
            Apart(s, r) || r.text[|s.text|..] == r.html[|s.html|..]
  {
    if at.depth <= o.maxDepth {
      LoopApart(parts, 0, at, BOTH, o, s);
      LoopGrows(parts, 0, at, BOTH, o, s);
    }
  }

  // ------------------------------------------------------------------
  // What can be lost
  // ------------------------------------------------------------------

  /** A visited leaf missing from all three lists is an inline one beneath an
      alternative. */
  lemma DroppedOnlyBelowAnAlternative(root: Part, o: Options, n: nat)
    requires 1 <= n <= Walk(root, o).nextId
    requires var s := Walk(root, o); n !in Ids(s.text) + Ids(s.html) + Ids(s.att)
    ensures n <= |Table(root, o)| && Table(root, o)[n - 1].Item?
    ensures var e := Table(root, o)[n - 1]; e.alts > 0 && IsInline(e.leaf, e.index, e.kind)
  {
    WalkPlacesEveryLeaf(root, o);
    assert Placed(Table(root, o), n, Walk(root, o));
  }

  lemma {:induction false} NoAlternativeInListing(parts: seq<Part>, i: nat, at: Place, live: Live, o: Options)
    requires i <= |parts| && NoAlternative(parts, i)
    ensures forall e :: e in Listing(parts, i, at, live, o) && e.Item? ==> e.alts == at.alts
    decreases parts, |parts| - i
  {
    if i < |parts| && at.depth <= o.maxDepth {
      if parts[i].Multi? {
        assert |"mixed"| != |ALTERNATIVE|;
        NoAlternativeInListing(parts[i].children, 0, Below(parts[i], at), OpenAt(parts, i, at, live), o);
      }
      NoAlternativeInListing(parts, i + 1, at, live, o);
    }
  }

  lemma {:induction false} NumberedSubset(entries: seq<Entry>, budget: nat)
    ensures forall e :: e in Numbered(entries, budget) ==> e in entries
  {
    if entries != [] && budget != 0 {
      NumberedSubset(entries[1..], budget - 1);
    }
  }

  /** Without any alternative every visited leaf lands either in both bodies or, once,
      in the attachments, by its own headers and position alone. */
  lemma WithoutAlternativesNothingIsLost(root: Part, o: Options, n: nat)
    requires NoAlternative([root], 0)
    requires 1 <= n <= Walk(root, o).nextId
    ensures n <= |Table(root, o)| && Table(root, o)[n - 1].Item?
    ensures var s, e := Walk(root, o), Table(root, o)[n - 1];
            if IsInline(e.leaf, e.index, e.kind)
            then n in Ids(s.text) && n in Ids(s.html) && n !in Ids(s.att)
            else n !in Ids(s.text) && n !in Ids(s.html) && n in Ids(s.att)
  {
    WalkPlacesEveryLeaf(root, o);
    NoAlternativeInListing([root], 0, ROOT, BOTH, o);
    NumberedSubset(Entries(root, o), o.maxParts);
    assert Table(root, o)[n - 1] in Table(root, o);
    assert Placed(Table(root, o), n, Walk(root, o));
  }
}
