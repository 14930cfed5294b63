/** The HTML text extractor behind message previews, with and without a budget. */
module Preview {
  import opened Wrappers

  /** What the HTML tokenizer reports.  `link` is the text of a tag that is really a
      markdown autolink; `Mark` is a comment, declaration or processing instruction. */
  datatype Event =
    | StartTag(tag: string, link: Option<string>)
    | StartEndTag(tag: string, link: Option<string>)
    | EndTag(tag: string)
    | Data(text: string)
    | Mark

  const SUPPRESS_TAGS := {"script", "style", "title", "blockquote"}

  /** A kept chunk: a run of text, or the single blank written for a word boundary. */
  datatype Piece = Run(text: string) | Gap

  datatype State = State(chunks: seq<Piece>, collected: nat, suppressDepth: nat, pendingSpace: bool, enough: bool)

  const INITIAL := State([], 0, 0, false, false)

  // ------------------------------------------------------------------
  // The extractor
  // ------------------------------------------------------------------

  function WithGap(s: State): State {
    if s.pendingSpace && s.chunks != [] then s.(chunks := s.chunks + [Gap], pendingSpace := false)
    else s.(pendingSpace := false)
  }

  /** How many more characters the budget allows. */
  function Room(budget: nat, collected: nat): nat {
    if collected < budget then budget - collected else 0
  }

  /** `enough` stands for the exception that interrupts the parse. */
  function AddText(s: State, text: string, budget: Option<nat>): State {
    if text == "" then s
    else
      var s1 := WithGap(s);
      if budget.Some? && |text| >= Room(budget.value, s.collected) then
        s1.(chunks := s1.chunks + [Run(text[..Room(budget.value, s.collected)])],
            collected := budget.value,
            enough := true)
      else s1.(chunks := s1.chunks + [Run(text)], collected := s.collected + |text|)
  }

  function TagOrAutolink(s: State, link: Option<string>, budget: Option<nat>): State {
    if s.suppressDepth > 0 then s
    else if link.Some? then AddText(s, link.value, budget)
    else s.(pendingSpace := true)
  }

  function Handle(s: State, e: Event, budget: Option<nat>): State {
    match e
    case StartTag(tag, link) =>
      if tag in SUPPRESS_TAGS then s.(suppressDepth := s.suppressDepth + 1, pendingSpace := true)
      else TagOrAutolink(s, link, budget)
    case StartEndTag(tag, link) =>
      if tag in SUPPRESS_TAGS then s.(pendingSpace := true) else TagOrAutolink(s, link, budget)
    case EndTag(tag) =>
      var depth := if tag in SUPPRESS_TAGS && s.suppressDepth > 0 then s.suppressDepth - 1 else s.suppressDepth;
      s.(suppressDepth := depth, pendingSpace := true)
    case Data(text) => if s.suppressDepth == 0 then AddText(s, text, budget) else s
    case Mark => s.(pendingSpace := true)
  }

  function Feed(s: State, events: seq<Event>, budget: Option<nat>): State
    decreases |events|
  {
    if events == [] || s.enough then s else Feed(Handle(s, events[0], budget), events[1..], budget)
  }

  function PieceText(p: Piece): string {
    if p.Run? then p.text else " "
  }

  /** The extracted text. */
  function Text(chunks: seq<Piece>): string {
    if chunks == [] then "" else PieceText(chunks[0]) + Text(chunks[1..])
  }

  function StripHtml(events: seq<Event>, budget: Option<nat>): string {
    Text(Feed(INITIAL, events, budget).chunks)
  }

  class TextExtractor {
    var chunks: seq<Piece>
    var collected: nat
    var suppressDepth: nat
    var pendingSpace: bool
    const maxChars: Option<nat>

    constructor (maxChars: Option<nat>)
      ensures this.maxChars == maxChars && Now(false) == INITIAL
    {
      this.maxChars := maxChars;
      chunks, collected, suppressDepth, pendingSpace := [], 0, 0, false;
    }

    function Now(enough: bool): State
      reads this
    {
      State(chunks, collected, suppressDepth, pendingSpace, enough)
    }

    /** The budget is never overshot, so that the room left is a count. */
    ghost predicate Valid()
      reads this
    {
      maxChars.Some? ==> collected <= maxChars.value
    }

    method AddTextOf(text: string) returns (enough: bool)
      requires Valid()
      modifies this
      ensures Valid() && Now(enough) == AddText(old(Now(false)), text, maxChars)
    {
      if text == "" {
        return false;
      }
      if pendingSpace {
        pendingSpace := false;
        if chunks != [] {
          chunks := chunks + [Gap];
        }
      }
      if maxChars.Some? {
        var remaining := maxChars.value - collected;
        if |text| >= remaining {
          chunks := chunks + [Run(text[..remaining])];
          collected := maxChars.value;
          return true;
        }
      }
      chunks := chunks + [Run(text)];
      collected := collected + |text|;
      return false;
    }

    method HandleEvent(e: Event) returns (enough: bool)
      requires Valid()
      modifies this
      ensures Valid() && Now(enough) == Handle(old(Now(false)), e, maxChars)
    {
      enough := false;
      match e
      case StartTag(tag, link) =>
        if tag in SUPPRESS_TAGS {
          suppressDepth := suppressDepth + 1;
          pendingSpace := true;
        } else {
          enough := TagOrAutolinkOf(link);
        }
      case StartEndTag(tag, link) =>
        if tag in SUPPRESS_TAGS {
          pendingSpace := true;
        } else {
          enough := TagOrAutolinkOf(link);
        }
      case EndTag(tag) =>
        if tag in SUPPRESS_TAGS && suppressDepth > 0 {
          suppressDepth := suppressDepth - 1;
        }
        pendingSpace := true;
      case Data(text) =>
        if suppressDepth == 0 {
          enough := AddTextOf(text);
        }
      case Mark =>
        pendingSpace := true;
    }

    method TagOrAutolinkOf(link: Option<string>) returns (enough: bool)
      requires Valid()
      modifies this
      ensures Valid() && Now(enough) == TagOrAutolink(old(Now(false)), link, maxChars)
    {
      if suppressDepth > 0 {
        return false;
      }
      if link.Some? {
        enough := AddTextOf(link.value);
        return;
      }
      pendingSpace := true;
      return false;
    }

    method FeedAll(events: seq<Event>) returns (enough: bool)
      requires Valid()
      modifies this
      ensures Valid() && Now(enough) == Feed(old(Now(false)), events, maxChars)
    {
      enough := false;
      var i := 0;
      while i < |events|
        invariant 0 <= i <= |events| && Valid() && !enough
        invariant Feed(Now(false), events[i..], maxChars) == Feed(old(Now(false)), events, maxChars)
      {
        assert events[i..][0] == events[i] && events[i..][1..] == events[i + 1..];
        enough := HandleEvent(events[i]);
        if enough {
          return;
        }
        i := i + 1;
      }
    }
  }

  method StripHtmlOf(events: seq<Event>, budget: Option<nat>) returns (r: string)
    ensures r == StripHtml(events, budget)
  {
    var extractor := new TextExtractor(budget);
    var enough := extractor.FeedAll(events);
    assert extractor.Now(enough) == Feed(INITIAL, events, budget);
    return Text(extractor.chunks);
  }

  // ------------------------------------------------------------------
  // What is visible, independently of how it is collected
  // ------------------------------------------------------------------

  function DepthAfter(e: Event, depth: nat): nat {
    match e
    case StartTag(tag, _) => if tag in SUPPRESS_TAGS then depth + 1 else depth
    case EndTag(tag) => if tag in SUPPRESS_TAGS && depth > 0 then depth - 1 else depth
    case _ => depth
  }

  /** The text one event shows when `depth` suppressed elements are open. */
  function Shown(e: Event, depth: nat): string {
    if depth > 0 then ""
    else
      match e
      case StartTag(tag, link) => if tag !in SUPPRESS_TAGS && link.Some? then link.value else ""
      case StartEndTag(tag, link) => if tag !in SUPPRESS_TAGS && link.Some? then link.value else ""
      case Data(text) => text
      case _ => ""
  }

  /** All the text shown outside suppressed elements. */
  function Visible(events: seq<Event>, depth: nat): string {
    if events == [] then "" else Shown(events[0], depth) + Visible(events[1..], DepthAfter(events[0], depth))
  }

  /** The chunks without the boundary blanks. */
  function Runs(chunks: seq<Piece>): string {
    if chunks == [] then "" else PieceRun(chunks[0]) + Runs(chunks[1..])
  }

  function PieceRun(p: Piece): string {
    if p.Run? then p.text else ""
  }

  lemma {:induction false} TextSnoc(a: seq<Piece>, p: Piece)
    ensures Text(a + [p]) == Text(a) + PieceText(p)
    decreases a
  {
    if a == [] {
      assert [p][1..] == [] && a + [p] == [p];
      assert PieceText(p) + "" == PieceText(p) == "" + PieceText(p);
    } else {
      assert (a + [p])[0] == a[0] && (a + [p])[1..] == a[1..] + [p];
      TextSnoc(a[1..], p);
      assert PieceText(a[0]) + (Text(a[1..]) + PieceText(p)) == PieceText(a[0]) + Text(a[1..]) + PieceText(p);
    }
  }

  lemma {:induction false} RunsSnoc(a: seq<Piece>, p: Piece)
    ensures Runs(a + [p]) == Runs(a) + PieceRun(p)
    decreases a
  {
    if a == [] {
      assert [p][1..] == [] && a + [p] == [p];
      assert PieceRun(p) + "" == PieceRun(p) == "" + PieceRun(p);
    } else {
      assert (a + [p])[0] == a[0] && (a + [p])[1..] == a[1..] + [p];
      RunsSnoc(a[1..], p);
      assert PieceRun(a[0]) + (Runs(a[1..]) + PieceRun(p)) == PieceRun(a[0]) + Runs(a[1..]) + PieceRun(p);
    }
  }

  lemma ChunksSnoc(a: seq<Piece>, p: Piece)
    ensures Text(a + [p]) == Text(a) + PieceText(p)
    ensures Runs(a + [p]) == Runs(a) + PieceRun(p)
  {
    TextSnoc(a, p);
    RunsSnoc(a, p);
  }

  /** The counter agrees with what has been collected. */
  ghost predicate Counted(s: State) {
    s.collected == |Runs(s.chunks)|
  }

  /** Blanks stand only between two runs of text. */
  ghost predicate Spaced(chunks: seq<Piece>) {
    chunks != [] ==>
      && chunks[0].Run? && chunks[|chunks| - 1].Run?
      && forall i :: 0 <= i < |chunks| && chunks[i].Gap? ==> i + 1 < |chunks| && chunks[i + 1].Run?
  }

  function Gaps(chunks: seq<Piece>): nat {
    if chunks == [] then 0 else (if chunks[0].Gap? then 1 else 0) + Gaps(chunks[1..])
  }

  lemma {:induction false} TextLength(chunks: seq<Piece>)
    ensures |Text(chunks)| == |Runs(chunks)| + Gaps(chunks)
  {
    if chunks != [] {
      TextLength(chunks[1..]);
    }
  }

  lemma {:induction false} GapsConcat(a: seq<Piece>, b: seq<Piece>)
    ensures Gaps(a + b) == Gaps(a) + Gaps(b)
    decreases a
  {
    if a == [] {
      assert a + b == b;
    } else {
      assert (a + b)[0] == a[0] && (a + b)[1..] == a[1..] + b;
      GapsConcat(a[1..], b);
    }
  }

  ghost predicate Good(s: State) {
    Counted(s) && Spaced(s.chunks) && !s.enough
  }

  /** `text` was added behind what was there. */
  ghost predicate Grown(s: State, u: State, text: string) {
    && Runs(u.chunks) == Runs(s.chunks) + text
    && Text(s.chunks) <= Text(u.chunks) && Gaps(s.chunks) <= Gaps(u.chunks)
    && (text == "" ==> u.chunks == s.chunks)
  }

  /** `r` is `u` stopped at the budget. */
  ghost predicate Capped(r: State, u: State, budget: nat) {
    && Spaced(r.chunks) && budget <= |Runs(u.chunks)|
    && Runs(r.chunks) == Runs(u.chunks)[..budget]
    && Text(r.chunks) <= Text(u.chunks) && Gaps(r.chunks) == Gaps(u.chunks)
    && (|Runs(u.chunks)| == budget ==> r.chunks == u.chunks)
  }

  lemma SpacedRun(s: State, text: string)
    requires Spaced(s.chunks)
    ensures Spaced(WithGap(s).chunks + [Run(text)])
  {
    var c := WithGap(s).chunks + [Run(text)];
    assert c[0].Run?;
    forall i | 0 <= i < |c| && c[i].Gap? ensures i + 1 < |c| && c[i + 1].Run? {
      if i < |s.chunks| {
        assert s.chunks[i].Gap?;
      }
    }
  }

  /** The chunks after one more run of text. */
  lemma RunAdded(s: State, text: string)
    ensures var c := WithGap(s).chunks + [Run(text)];
            && Runs(c) == Runs(s.chunks) + text
            && Text(c) == Text(WithGap(s).chunks) + text
            && Text(s.chunks) <= Text(WithGap(s).chunks)
            && Gaps(s.chunks) <= Gaps(c) == Gaps(WithGap(s).chunks)
  {
    var s1 := WithGap(s);
    ChunksSnoc(s.chunks, Gap);
    ChunksSnoc(s1.chunks, Run(text));
    GapsConcat(s.chunks, [Gap]);
    GapsConcat(s1.chunks, [Run(text)]);
    assert [Run(text)][1..] == [] && [Gap][1..] == [];
  }

  lemma AddTextFree(s: State, text: string)
    requires Good(s)
    ensures Good(AddText(s, text, None)) && Grown(s, AddText(s, text, None), text)
  {
    if text == "" {
      assert Runs(s.chunks) + text == Runs(s.chunks);
    } else {
      SpacedRun(s, text);
      RunAdded(s, text);
    }
  }

  lemma HeadOfRun(before: string, text: string, end: nat)
    requires |before| <= end <= |before| + |text|
    ensures (before + text)[..end] == before + text[..end - |before|]
    ensures before + text[..end - |before|] <= before + text
  {
  }

  lemma AddTextCapped(s: State, text: string, budget: nat)
    requires Good(s) && s.collected <= budget
    ensures var r, u := AddText(s, text, Some(budget)), AddText(s, text, None);
            if text != "" && s.collected + |text| >= budget then r.enough && Capped(r, u, budget) else r == u
  {
    if text != "" && s.collected + |text| >= budget {
      var head := text[..budget - s.collected];
      SpacedRun(s, head);
      RunAdded(s, head);
      RunAdded(s, text);
      HeadOfRun(Runs(s.chunks), text, budget);
      HeadOfRun(Text(WithGap(s).chunks), text, |Text(WithGap(s).chunks)| + |head|);
      assert s.collected + |text| == budget ==> head == text;
    }
  }

  lemma HandleFree(s: State, e: Event)
    requires Good(s)
    ensures var u := Handle(s, e, None);
            Good(u) && Grown(s, u, Shown(e, s.suppressDepth)) && u.suppressDepth == DepthAfter(e, s.suppressDepth)
  {
    AddTextFree(s, Shown(e, s.suppressDepth));
    assert Runs(s.chunks) + "" == Runs(s.chunks);
  }

  lemma HandleCapped(s: State, e: Event, budget: nat)
    requires Good(s) && s.collected <= budget
    ensures var r, u, text := Handle(s, e, Some(budget)), Handle(s, e, None), Shown(e, s.suppressDepth);
            if text != "" && s.collected + |text| >= budget then r.enough && Capped(r, u, budget) else r == u
  {
    AddTextCapped(s, Shown(e, s.suppressDepth), budget);
  }

  /** Without a budget everything visible is collected, in order. */
  lemma {:induction false} UnbudgetedCollectsAll(s: State, events: seq<Event>)
    requires Good(s)
    ensures var f := Feed(s, events, None); Good(f) && Grown(s, f, Visible(events, s.suppressDepth))
    decreases |events|
  {
    if events == [] {
      assert Runs(s.chunks) + "" == Runs(s.chunks);
    } else {
      var u := Handle(s, events[0], None);
      HandleFree(s, events[0]);
      UnbudgetedCollectsAll(u, events[1..]);
      var text, rest := Shown(events[0], s.suppressDepth), Visible(events[1..], u.suppressDepth);
      assert Runs(s.chunks) + text + rest == Runs(s.chunks) + (text + rest);
    }
  }

  /** The budgeted run against the full one, from a state that has room left. */
  ghost predicate Cut(b: State, f: State, budget: nat) {
    && Spaced(b.chunks)
    && Runs(b.chunks) == Runs(f.chunks)[..if |Runs(f.chunks)| < budget then |Runs(f.chunks)| else budget]
    && Text(b.chunks) <= Text(f.chunks) && Gaps(b.chunks) <= Gaps(f.chunks)
    && (|Runs(f.chunks)| <= budget ==> b.chunks == f.chunks)
  }

  lemma CappedThenGrown(r: State, u: State, f: State, budget: nat, rest: string)
    requires Capped(r, u, budget) && Grown(u, f, rest)
    ensures Cut(r, f, budget)
  {
    assert Runs(u.chunks)[..budget] == Runs(f.chunks)[..budget];
  }

  lemma {:induction false} BudgetedCollectsPrefix(s: State, events: seq<Event>, budget: nat)
    requires Good(s) && s.collected <= budget
    ensures Cut(Feed(s, events, Some(budget)), Feed(s, events, None), budget)
    decreases |events|
  {
    if events != [] {
      var e := events[0];
      var r, u := Handle(s, e, Some(budget)), Handle(s, e, None);
      HandleFree(s, e);
      HandleCapped(s, e, budget);
      if r.enough {
        UnbudgetedCollectsAll(u, events[1..]);
        CappedThenGrown(r, u, Feed(u, events[1..], None), budget, Visible(events[1..], u.suppressDepth));
      } else {
        BudgetedCollectsPrefix(u, events[1..], budget);
      }
    }
  }

  /** For every sequence of events: the full output is all the visible text with blanks
      only between two runs of it; the budgeted output is an initial segment of the full
      output that carries exactly the first min(budget, total) visible characters, and it
      is the full output if and only if the total does not exceed the budget. */
  lemma BudgetOnlyCutsTheTail(events: seq<Event>, budget: nat)
    ensures var total := Visible(events, 0);
            var b, f := Feed(INITIAL, events, Some(budget)), Feed(INITIAL, events, None);
            && Runs(f.chunks) == total && Spaced(f.chunks) && Spaced(b.chunks)
            && Runs(b.chunks) == total[..if |total| < budget then |total| else budget]
            && StripHtml(events, Some(budget)) <= StripHtml(events, None)
            && (StripHtml(events, Some(budget)) == StripHtml(events, None) <==> |total| <= budget)
  {
    UnbudgetedCollectsAll(INITIAL, events);
    BudgetedCollectsPrefix(INITIAL, events, budget);
    assert "" + Visible(events, 0) == Visible(events, 0);
    TextLength(Feed(INITIAL, events, Some(budget)).chunks);
    TextLength(Feed(INITIAL, events, None).chunks);
  }
}
