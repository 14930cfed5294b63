/** The flat JMAP walk: `parseStructure` of section 4.1.4 of RFC 8621 as the parser
    implements it, first as a state-passing function and then as the method that
    appends to shared lists and bumps a shared counter. */
module MimeWalk {
  import opened MimeTree

  /** An entry of `textBody`, `htmlBody` or `attachments`. */
  datatype BodyPart = BodyPart(id: nat, leaf: Leaf)

  /** Everything the walk mutates. */
  datatype State = State(
    text: seq<BodyPart>,
    html: seq<BodyPart>,
    att: seq<BodyPart>,
    parts: nat,
    nextId: nat,
    problems: set<nat>,
    ambiguous: bool)

  const EMPTY := State([], [], [], 0, 0, {}, false)

  /** How the loop over one sibling list ended. */
  datatype Outcome = Outcome(state: State, live: Live, stopped: bool)

  function AddText(s: State, p: BodyPart): State {
    s.(text := s.text + [p])
  }

  function AddHtml(s: State, p: BodyPart): State {
    s.(html := s.html + [p])
  }

  function NoteProblem(s: State, p: BodyPart): State {
    if p.leaf.encodingProblem then s.(problems := s.problems + {p.id}) else s
  }

  /** Below an alternative, text/plain shuts the HTML list and text/html the text list. */
  function Narrow(live: Live, leaf: Leaf): Live {
    Live(live.text && leaf.ctype != "text/html", live.html && leaf.ctype != "text/plain")
  }

  /** Routing of a leaf whose container is itself the alternative. */
  function EmitDirect(s: State, p: BodyPart, live: Live): State {
    if p.leaf.ctype == "text/plain" then
      if live.text then NoteProblem(AddText(s, p), p) else s
    else if p.leaf.ctype == "text/html" then
      if live.html then NoteProblem(AddHtml(s, p), p) else s
    else s.(att := s.att + [p])
  }

  /** Routing of an inline leaf anywhere else. */
  function EmitBoth(s: State, p: BodyPart, live: Live): State {
    if live.text || live.html then
      var s1 := NoteProblem(s, p);
      var s2 := if live.text then AddText(s1, p) else s1;
      if live.html then AddHtml(s2, p) else s2
    else s
  }

  /** Numbers one leaf and routes it. */
  function Emit(s: State, leaf: Leaf, index: nat, at: Place, live: Live): (State, Live) {
    var s1 := s.(parts := s.parts + 1, nextId := s.nextId + 1);
    var p := BodyPart(s1.nextId, leaf);
    if !IsInline(leaf, index, at.kind) then (s1.(att := s1.att + [p]), live)
    else if at.kind == ALTERNATIVE then (EmitDirect(s1, p, live), live)
    else
      var live' := if at.alts > 0 then Narrow(live, leaf) else live;
      (EmitBoth(s1, p, live'), live')
  }

  /** One iteration of the loop: sibling `i` with everything beneath it. */
  function Visit(parts: seq<Part>, i: nat, at: Place, live: Live, o: Options, s: State): (r: (State, Live))
    requires i < |parts|
    ensures |s.text| <= |r.0.text| && |s.html| <= |r.0.html|
    decreases parts, |parts| - i, 0
  {
    match parts[i]
    case Single(leaf) => Emit(s, leaf, i, at, live)
    case Multi(_, _, _) => (ContainerStep(parts[i], at, live, o, s), live)
  }

  /** A container: it is counted, and walked unless it re-declares an ancestor's boundary. */
  function ContainerStep(part: Part, at: Place, live: Live, o: Options, s: State): (r: State)
    requires part.Multi?
    ensures |s.text| <= |r.text| && |s.html| <= |r.html|
    decreases part, 0
  {
    var s1 := s.(parts := s.parts + 1);
    if Reuses(part, at) then s1.(ambiguous := true)
    else Parse(part.children, Below(part, at), live, o, s1)
  }

  /** The loop over the siblings from `i` on. */
  function Loop(parts: seq<Part>, i: nat, at: Place, live: Live, o: Options, s: State): (r: Outcome)
    requires i <= |parts|
    ensures |s.text| <= |r.state.text| && |s.html| <= |r.state.html|
    decreases parts, |parts| - i
  {
    if i == |parts| then Outcome(s, live, false)
    else if s.parts >= o.maxParts then Outcome(s, live, true)
    else
      var (s', live') := Visit(parts, i, at, live, o, s);
      Loop(parts, i + 1, at, live', o, s')
  }

  /** An alternative that grew only one of two live lists copies what it added to the
      other one; `t` and `h` are the lengths on entry. */
  function Fallback(s: State, at: Place, live: Live, t: nat, h: nat): State
    requires t <= |s.text| && h <= |s.html|
  {
    if at.kind != ALTERNATIVE || !live.text || !live.html then s
    else if t == |s.text| && h != |s.html| then s.(text := s.text + s.html[h..])
    else if h == |s.html| && t != |s.text| then s.(html := s.html + s.text[t..])
    else s
  }

  /** One call of the walk on a sibling list. */
  function Parse(parts: seq<Part>, at: Place, live: Live, o: Options, s: State): (r: State)
    ensures |s.text| <= |r.text| && |s.html| <= |r.html|
    decreases parts, |parts| + 1
  {
    if at.depth > o.maxDepth then s
    else
      var r := Loop(parts, 0, at, live, o, s);
      if r.stopped then r.state
      else Fallback(r.state, at, r.live, |s.text|, |s.html|)
  }

  /** The walk of a whole message, before the ambiguity check. */
  function Walk(root: Part, o: Options): State {
    Parse([root], ROOT, BOTH, o, EMPTY)
  }

  /** What the caller of the walk gets: nothing at all once a boundary was reused. */
  datatype Content = Content(
    text: seq<BodyPart>,
    html: seq<BodyPart>,
    att: seq<BodyPart>,
    problems: set<nat>)

  function ParseMessage(root: Part, o: Options): Content {
    var s := Walk(root, o);
    if s.ambiguous then Content([], [], [], {})
    else Content(s.text, s.html, s.att, s.problems)
  }

  // ------------------------------------------------------------------
  // The walk as it runs: shared lists, a shared counter, nullable arguments
  // ------------------------------------------------------------------

  class PartList {
    var items: seq<BodyPart>

    constructor ()
      ensures items == []
    {
      items := [];
    }

    method Append(p: BodyPart)
      modifies this
      ensures items == old(items) + [p]
    {
      items := items + [p];
    }
  }

  class Counter {
    var parts: nat
    var nextId: nat
    var problems: set<nat>
    var ambiguous: bool

    constructor ()
      ensures parts == 0 && nextId == 0 && problems == {} && !ambiguous
    {
      parts, nextId, problems, ambiguous := 0, 0, {}, false;
    }
  }

  ghost function Abs(text: PartList, html: PartList, att: PartList, counter: Counter): State
    reads text, html, att, counter
  {
    State(text.items, html.items, att.items,
          counter.parts, counter.nextId, counter.problems, counter.ambiguous)
  }

  ghost predicate Separate(text: PartList, html: PartList, att: PartList) {
    text != html && text != att && html != att
  }

  /** `textBody` and `htmlBody` are null once a list is shut; `text` and `html` name
      the message-wide lists behind them. */
  method ParseBodyStructure(
    parts: seq<Part>, at: Place, inAlternative: bool,
    htmlBody: PartList?, textBody: PartList?, attachments: PartList, counter: Counter,
    o: Options, ghost html: PartList, ghost text: PartList)
    requires Separate(text, html, attachments)
    requires textBody == null || textBody == text
    requires htmlBody == null || htmlBody == html
    requires inAlternative == (at.alts > 0)
    modifies text, html, attachments, counter
    ensures Abs(text, html, attachments, counter)
         == Parse(parts, at, Live(textBody != null, htmlBody != null), o,
                  old(Abs(text, html, attachments, counter)))
    decreases parts, |parts| + 1
  {
    if at.depth > o.maxDepth {
      return;
    }
    var textLength := if textBody != null then |textBody.items| else -1;
    var htmlLength := if htmlBody != null then |htmlBody.items| else -1;
    var textList, htmlList, stopped :=
      VisitAll(parts, at, inAlternative, htmlBody, textBody, attachments, counter, o, html, text);
    if stopped {
      return;
    }
    if at.kind == ALTERNATIVE && textList != null && htmlList != null {
      CopyOver(textList, textLength, htmlList, htmlLength);
    }
  }

  /** The loop over the siblings; returns the lists still open after it, and whether the
      part cap ended it early. */
  method VisitAll(
    parts: seq<Part>, at: Place, inAlternative: bool,
    htmlBody: PartList?, textBody: PartList?, attachments: PartList, counter: Counter,
    o: Options, ghost html: PartList, ghost text: PartList)
    returns (textList: PartList?, htmlList: PartList?, stopped: bool)
    requires Separate(text, html, attachments)
    requires textBody == null || textBody == text
    requires htmlBody == null || htmlBody == html
    requires inAlternative == (at.alts > 0)
    modifies text, html, attachments, counter
    ensures textList == null || textList == textBody
    ensures htmlList == null || htmlList == htmlBody
    ensures Outcome(Abs(text, html, attachments, counter), Live(textList != null, htmlList != null), stopped)
         == Loop(parts, 0, at, Live(textBody != null, htmlBody != null), o,
                 old(Abs(text, html, attachments, counter)))
    decreases parts, |parts|
  {
    textList, htmlList, stopped := textBody, htmlBody, false;
    var i := 0;
    while i < |parts|
      invariant 0 <= i <= |parts| && !stopped
      invariant textList == null || textList == textBody
      invariant htmlList == null || htmlList == htmlBody
      invariant Loop(parts, i, at, Live(textList != null, htmlList != null), o, Abs(text, html, attachments, counter))
             == Loop(parts, 0, at, Live(textBody != null, htmlBody != null), o,
                     old(Abs(text, html, attachments, counter)))
    {
      if counter.parts >= o.maxParts {
        stopped := true;
        return;
      }
      match parts[i] {
        case Single(leaf) =>
          textList, htmlList :=
            VisitLeaf(leaf, i, at, inAlternative, htmlList, textList, attachments, counter, html, text);
        case Multi(_, _, _) =>
          VisitContainer(parts[i], at, inAlternative, htmlList, textList, attachments, counter, o, html, text);
      }
      i := i + 1;
    }
  }

  /** The fallback of an alternative, on the two lists and their lengths on entry. */
  method CopyOver(textList: PartList, textLength: nat, htmlList: PartList, htmlLength: nat)
    requires textList != htmlList
    requires textLength <= |textList.items| && htmlLength <= |htmlList.items|
    modifies textList, htmlList
    ensures textList.items == if textLength == |old(textList.items)| && htmlLength != |old(htmlList.items)|
                              then old(textList.items) + old(htmlList.items)[htmlLength..] else old(textList.items)
    ensures htmlList.items == if htmlLength == |old(htmlList.items)| && textLength != |old(textList.items)|
                              then old(htmlList.items) + old(textList.items)[textLength..] else old(htmlList.items)
  {
    if textLength == |textList.items| && htmlLength != |htmlList.items| {
      CopyTail(htmlList, htmlLength, textList);
    }
    if htmlLength == |htmlList.items| && textLength != |textList.items| {
      CopyTail(textList, textLength, htmlList);
    }
  }

  /** The loop body for a container: recursion, unless it re-declares the boundary of one
      of its ancestors. */
  method VisitContainer(
    part: Part, at: Place, inAlternative: bool,
    htmlBody: PartList?, textBody: PartList?, attachments: PartList, counter: Counter,
    o: Options, ghost html: PartList, ghost text: PartList)
    requires part.Multi?
    requires Separate(text, html, attachments)
    requires textBody == null || textBody == text
    requires htmlBody == null || htmlBody == html
    requires inAlternative == (at.alts > 0)
    modifies text, html, attachments, counter
    ensures Abs(text, html, attachments, counter)
         == ContainerStep(part, at, Live(textBody != null, htmlBody != null), o,
                          old(Abs(text, html, attachments, counter)))
    decreases part, 0
  {
    counter.parts := counter.parts + 1;
    if part.boundary != "" && part.boundary in at.parents {
      counter.ambiguous := true;
    } else {
      var below := Below(part, at);
      ParseBodyStructure(part.children, below, inAlternative || below.kind == ALTERNATIVE,
                         htmlBody, textBody, attachments, counter, o, html, text);
    }
  }

  /** The loop body for a leaf; returns the lists still open for the siblings after it. */
  method VisitLeaf(
    leaf: Leaf, i: nat, at: Place, inAlternative: bool,
    htmlBody: PartList?, textBody: PartList?, attachments: PartList, counter: Counter,
    ghost html: PartList, ghost text: PartList)
    returns (textList: PartList?, htmlList: PartList?)
    requires Separate(text, html, attachments)
    requires textBody == null || textBody == text
    requires htmlBody == null || htmlBody == html
    requires inAlternative == (at.alts > 0)
    modifies text, html, attachments, counter
    ensures textList == null || textList == textBody
    ensures htmlList == null || htmlList == htmlBody
    ensures (Abs(text, html, attachments, counter), Live(textList != null, htmlList != null))
         == Emit(old(Abs(text, html, attachments, counter)), leaf, i, at,
                 Live(textBody != null, htmlBody != null))
  {
    textList, htmlList := textBody, htmlBody;
    counter.parts := counter.parts + 1;
    counter.nextId := counter.nextId + 1;
    var p := BodyPart(counter.nextId, leaf);
    if !IsInline(leaf, i, at.kind) {
      attachments.Append(p);
      return;
    }
    if at.kind == ALTERNATIVE {
      if leaf.ctype == "text/plain" {
        if textList != null {
          textList.Append(p);
          RecordProblem(p, counter);
        }
      } else if leaf.ctype == "text/html" {
        if htmlList != null {
          htmlList.Append(p);
          RecordProblem(p, counter);
        }
      } else {
        attachments.Append(p);
      }
      return;
    }
    if inAlternative {
      if leaf.ctype == "text/plain" {
        htmlList := null;
      }
      if leaf.ctype == "text/html" {
        textList := null;
      }
    }
    if textList != null || htmlList != null {
      RecordProblem(p, counter);
      if textList != null {
        textList.Append(p);
      }
      if htmlList != null {
        htmlList.Append(p);
      }
    }
  }

  method RecordProblem(p: BodyPart, counter: Counter)
    modifies counter`problems
    ensures counter.problems == if p.leaf.encodingProblem then old(counter.problems) + {p.id} else old(counter.problems)
  {
    if p.leaf.encodingProblem {
      counter.problems := counter.problems + {p.id};
    }
  }

  /** Appends the entries of `from` from index `start` on to `to`. */
  method CopyTail(from: PartList, start: nat, to: PartList)
    requires from != to
    requires start <= |from.items|
    modifies to
    ensures to.items == old(to.items) + from.items[start..]
  {
    var j := start;
    while j < |from.items|
      invariant start <= j <= |from.items|
      invariant from.items == old(from.items)
      invariant to.items == old(to.items) + from.items[start..j]
    {
      to.Append(from.items[j]);
      j := j + 1;
    }
  }

  /** Runs the walk on a message and applies the boundary-reuse defence. */
  method ParseMessageContent(root: Part, o: Options) returns (r: Content)
    ensures r == ParseMessage(root, o)
  {
    var text := new PartList();
    var html := new PartList();
    var att := new PartList();
    var counter := new Counter();
    ParseBodyStructure([root], ROOT, false, html, text, att, counter, o, html, text);
    if counter.ambiguous {
      return Content([], [], [], {});
    }
    return Content(text.items, html.items, att.items, counter.problems);
  }

  // ------------------------------------------------------------------
  // The walk only ever appends
  // ------------------------------------------------------------------

  /** `after` extends `before`, and what it adds carries ids beyond `floor`. */
  ghost predicate Extends(before: seq<BodyPart>, after: seq<BodyPart>, floor: nat) {
    && before <= after
    && forall j :: |before| <= j < |after| ==> after[j].id > floor
  }

  ghost predicate Grows(s: State, r: State) {
    && s.parts <= r.parts
    && s.nextId <= r.nextId
    && (s.ambiguous ==> r.ambiguous)
    && s.problems <= r.problems
    && Extends(s.text, r.text, s.nextId)
    && Extends(s.html, r.html, s.nextId)
    && Extends(s.att, r.att, s.nextId)
  }

  lemma GrowsTransitive(a: State, b: State, c: State)
    requires Grows(a, b) && Grows(b, c)
    ensures Grows(a, c)
  {
  }

  lemma EmitGrows(s: State, leaf: Leaf, index: nat, at: Place, live: Live)
    ensures Grows(s, Emit(s, leaf, index, at, live).0)
  {
  }

  lemma FallbackGrows(s: State, r: State, at: Place, live: Live)
    requires Grows(s, r)
    ensures Grows(s, Fallback(r, at, live, |s.text|, |s.html|))
  {
  }

  /** Neither a call nor any part of its loop removes, reorders or renumbers an entry,
      and a list that is null on entry is left alone. */
  lemma {:induction false} VisitGrows(parts: seq<Part>, i: nat, at: Place, live: Live, o: Options, s: State)
    requires i < |parts|
    ensures Grows(s, Visit(parts, i, at, live, o, s).0)
    decreases parts, |parts| - i, 0
  {
    match parts[i]
    case Single(leaf) =>
      EmitGrows(s, leaf, i, at, live);
    case Multi(_, _, children) =>
      if !Reuses(parts[i], at) {
        var s1 := s.(parts := s.parts + 1);
        ParseGrows(children, Below(parts[i], at), live, o, s1);
        GrowsTransitive(s, s1, Parse(children, Below(parts[i], at), live, o, s1));
      }
  }

  lemma {:induction false} LoopGrows(parts: seq<Part>, i: nat, at: Place, live: Live, o: Options, s: State)
    requires i <= |parts|
    ensures Grows(s, Loop(parts, i, at, live, o, s).state)
    decreases parts, |parts| - i
  {
    if i < |parts| && s.parts < o.maxParts {
      var (s', live') := Visit(parts, i, at, live, o, s);
      VisitGrows(parts, i, at, live, o, s);
      LoopGrows(parts, i + 1, at, live', o, s');
      GrowsTransitive(s, s', Loop(parts, i + 1, at, live', o, s').state);
    }
  }

  lemma {:induction false} ParseGrows(parts: seq<Part>, at: Place, live: Live, o: Options, s: State)
    ensures Grows(s, Parse(parts, at, live, o, s))
    decreases parts, |parts| + 1
  {
    if at.depth <= o.maxDepth {
      LoopGrows(parts, 0, at, live, o, s);
      var r := Loop(parts, 0, at, live, o, s);
      FallbackGrows(s, r.state, at, r.live);
    }
  }
}
