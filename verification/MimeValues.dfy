/** The `bodyValues` map, and what it promises about `bodyStructure`. */
module MimeValues {
  import opened Text
  import opened MimeTree
  import opened MimeWalk
  import opened MimePlacement
  import opened MimeStructure

  datatype BodyValue = BodyValue(value: string, isEncodingProblem: bool)

  /** CRLF, then any CR left, becomes LF. */
  function Normalise(s: string): (r: string)
    ensures '\r' !in r
    ensures '\r' !in s ==> r == s
  {
    if s == "" then ""
    else if s[0] == '\r' then
      if |s| > 1 && s[1] == '\n' then "\n" + Normalise(s[2..]) else "\n" + Normalise(s[1..])
    else [s[0]] + Normalise(s[1..])
  }

  /** The lines with the line ends between them. */
  function Weave(lines: seq<string>, ends: seq<string>): string
    requires |lines| == |ends| + 1
  {
    if ends == [] then lines[0] else lines[0] + ends[0] + Weave(lines[1..], ends[1..])
  }

  /** `content` falls into these lines: nothing in them is a CR or an LF, each is ended by a
      CRLF, a lone CR or a lone LF, and no CRLF is taken for two line ends. */
  ghost predicate HasLines(content: string, lines: seq<string>, ends: seq<string>) {
    && |lines| == |ends| + 1 && content == Weave(lines, ends)
    && (forall i :: 0 <= i < |lines| ==> Lacks(lines[i], {'\r', '\n'}))
    && (forall i :: 0 <= i < |ends| ==> ends[i] in ["\r\n", "\r", "\n"])
    && (forall i :: 0 <= i < |ends| - 1 && ends[i] == "\r" ==> lines[i + 1] != "" || ends[i + 1] != "\n")
  }

  /** Every content falls into lines. */
  lemma {:induction false} LinesOf(content: string) returns (lines: seq<string>, ends: seq<string>)
    ensures HasLines(content, lines, ends)
    decreases |content|
  {
    if content == "" {
      lines, ends := [""], [];
    } else if content[0] == '\r' || content[0] == '\n' {
      var end := if content[0] == '\n' then "\n" else if |content| > 1 && content[1] == '\n' then "\r\n" else "\r";
      var rest := content[|end|..];
      var ls, es := LinesOf(rest);
      lines, ends := [""] + ls, [end] + es;
      assert lines[1..] == ls && ends[1..] == es && content == end + rest;
      if end == "\r" && es != [] && ls[0] == "" && es[0] == "\n" {
        assert rest[0] == '\n';
        assert content[1] == rest[0];
      }
    } else {
      var ls, es := LinesOf(content[1..]);
      lines, ends := [[content[0]] + ls[0]] + ls[1..], es;
      assert content == [content[0]] + content[1..];
      assert lines[1..] == ls[1..];
    }
  }

  lemma {:induction false} NormalisePlain(line: string, rest: string)
    requires Lacks(line, {'\r', '\n'})
    ensures Normalise(line + rest) == line + Normalise(rest)
    decreases line
  {
    if line == "" {
      assert line + rest == rest;
    } else {
      assert (line + rest)[0] == line[0] && (line + rest)[1..] == line[1..] + rest;
      NormalisePlain(line[1..], rest);
      assert Normalise(line + rest) == [line[0]] + Normalise(line[1..] + rest);
      assert [line[0]] + (line[1..] + Normalise(rest)) == line + Normalise(rest);
    }
  }

  lemma NormaliseEnd(end: string, rest: string)
    requires end in ["\r\n", "\r", "\n"] && (end == "\r" ==> rest == "" || rest[0] != '\n')
    ensures Normalise(end + rest) == "\n" + Normalise(rest)
  {
    var s := end + rest;
    assert s[|end|..] == rest;
    if end == "\r\n" {
      assert s[0] == '\r' && s[1] == '\n';
    }
  }

  lemma NormaliseLine(line: string, end: string, rest: string)
    requires Lacks(line, {'\r', '\n'})
    requires end in ["\r\n", "\r", "\n"] && (end == "\r" ==> rest == "" || rest[0] != '\n')
    ensures Normalise(line + end + rest) == line + "\n" + Normalise(rest)
  {
    assert line + end + rest == line + (end + rest);
    NormalisePlain(line, end + rest);
    NormaliseEnd(end, rest);
    assert line + ("\n" + Normalise(rest)) == line + "\n" + Normalise(rest);
  }

  lemma TailHasLines(lines: seq<string>, ends: seq<string>)
    requires ends != [] && |lines| == |ends| + 1 && HasLines(Weave(lines, ends), lines, ends)
    ensures var rest := Weave(lines[1..], ends[1..]);
            && HasLines(rest, lines[1..], ends[1..])
            && (ends[0] == "\r" ==> rest == "" || rest[0] != '\n')
  {
    var rest := Weave(lines[1..], ends[1..]);
    if ends[0] == "\r" && rest != "" {
      if lines[1] != "" {
        assert rest[0] == lines[1][0];
      } else {
        assert rest[0] == ends[1][0];
      }
    }
  }

  /** A value is the lines of the content with one LF between each two. */
  lemma {:induction false} NormaliseJoinsTheLines(content: string, lines: seq<string>, ends: seq<string>)
    requires HasLines(content, lines, ends)
    ensures Normalise(content) == Join(lines, "\n")
    decreases |ends|
  {
    if ends == [] {
      NormalisePlain(lines[0], "");
      assert lines[0] + "" == lines[0];
    } else {
      var rest := Weave(lines[1..], ends[1..]);
      TailHasLines(lines, ends);
      NormaliseJoinsTheLines(rest, lines[1..], ends[1..]);
      NormaliseLine(lines[0], ends[0], rest);
    }
  }

  /** `value` has the lines of `content`, with one LF between each two. */
  ghost predicate HasTheLinesOf(value: string, content: string) {
    exists lines, ends :: HasLines(content, lines, ends) && value == Join(lines, "\n")
  }

  lemma NormaliseHasTheLines(content: string)
    ensures HasTheLinesOf(Normalise(content), content)
  {
    var lines, ends := LinesOf(content);
    NormaliseJoinsTheLines(content, lines, ends);
  }

  /** No other text has them. */
  lemma TheLinesDetermineTheText(value: string, content: string)
    requires HasTheLinesOf(value, content)
    ensures value == Normalise(content)
    ensures '\r' !in content ==> value == content
  {
    var lines, ends :| HasLines(content, lines, ends) && value == Join(lines, "\n");
    NormaliseJoinsTheLines(content, lines, ends);
  }

  predicate IsText(ctype: string) {
    "text/" <= ctype
  }

  function ValueOf(p: BodyPart, problems: set<nat>): BodyValue {
    BodyValue(Normalise(p.leaf.content), p.id in problems)
  }

  /** The first text part under each id, as `setdefault` leaves it. */
  function Values(parts: seq<BodyPart>, problems: set<nat>): map<nat, BodyValue> {
    if parts == [] then map[]
    else
      var earlier, p := Values(parts[..|parts| - 1], problems), parts[|parts| - 1];
      if !IsText(p.leaf.ctype) || p.id in earlier then earlier
      else earlier[p.id := ValueOf(p, problems)]
  }

  method BuildBodyValues(textBody: seq<BodyPart>, htmlBody: seq<BodyPart>, problems: set<nat>)
    returns (values: map<nat, BodyValue>)
    ensures values == Values(textBody + htmlBody, problems)
  {
    var all := textBody + htmlBody;
    values := map[];
    var i := 0;
    while i < |all|
      invariant 0 <= i <= |all|
      invariant values == Values(all[..i], problems)
    {
      assert all[..i + 1][..i] == all[..i];
      var part := all[i];
      if IsText(part.leaf.ctype) && part.id !in values {
        values := values[part.id := ValueOf(part, problems)];
      }
      i := i + 1;
    }
    assert all[..i] == all;
  }

  /** When equal ids mean equal parts, the map holds one value per text part. */
  lemma {:induction false} ValuesHoldTextParts(parts: seq<BodyPart>, problems: set<nat>)
    requires forall p, q :: p in parts && q in parts && p.id == q.id ==> p == q
    ensures forall n :: n in Values(parts, problems) <==>
              exists p :: p in parts && p.id == n && IsText(p.leaf.ctype)
    ensures forall p :: p in parts && IsText(p.leaf.ctype)
              ==> p.id in Values(parts, problems) && Values(parts, problems)[p.id] == ValueOf(p, problems)
  {
    if parts != [] {
      var init, last := parts[..|parts| - 1], parts[|parts| - 1];
      assert parts == init + [last];
      ValuesHoldTextParts(init, problems);
    }
  }

  // ------------------------------------------------------------------
  // Which encodings are reported as broken
  // ------------------------------------------------------------------

  ghost function Broken(list: seq<BodyPart>): set<nat> {
    set p | p in list && p.leaf.encodingProblem :: p.id
  }

  /** The recorded problems are exactly those of the parts in the two bodies. */
  ghost predicate Reported(s: State) {
    s.problems == Broken(s.text) + Broken(s.html)
  }

  lemma BrokenConcat(a: seq<BodyPart>, b: seq<BodyPart>)
    ensures Broken(a + b) == Broken(a) + Broken(b)
  {
    forall n | n in Broken(a) + Broken(b) ensures n in Broken(a + b) {
      var p :| p in a + b && p.leaf.encodingProblem && p.id == n;
    }
  }

  lemma BrokenAppend(a: seq<BodyPart>, p: BodyPart)
    ensures Broken(a + [p]) == if p.leaf.encodingProblem then Broken(a) + {p.id} else Broken(a)
  {
    BrokenConcat(a, [p]);
    assert Broken([p]) == if p.leaf.encodingProblem then {p.id} else {};
  }

  /** A leaf routed to a body list is noted exactly when its encoding is broken. */
  lemma RoutedReported(s: State, r: State, p: BodyPart)
    requires Reported(s)
    requires r.text in {s.text, s.text + [p]} && r.html in {s.html, s.html + [p]}
    requires r.problems ==
             if p.leaf.encodingProblem && (r.text != s.text || r.html != s.html) then s.problems + {p.id}
             else s.problems
    ensures Reported(r)
  {
    BrokenAppend(s.text, p);
    BrokenAppend(s.html, p);
  }

  lemma EmitReported(s: State, leaf: Leaf, index: nat, at: Place, live: Live)
    requires Reported(s)
    ensures Reported(Emit(s, leaf, index, at, live).0)
  {
    RoutedReported(s, Emit(s, leaf, index, at, live).0, BodyPart(s.nextId + 1, leaf));
  }

  lemma FallbackReported(s: State, at: Place, live: Live, t: nat, h: nat)
    requires Reported(s) && t <= |s.text| && h <= |s.html|
    ensures Reported(Fallback(s, at, live, t, h))
  {
    BrokenConcat(s.text, s.html[h..]);
    BrokenConcat(s.html, s.text[t..]);
    assert Broken(s.html[h..]) <= Broken(s.html) && Broken(s.text[t..]) <= Broken(s.text);
  }

  lemma {:induction false} VisitReported(parts: seq<Part>, i: nat, at: Place, live: Live, o: Options, s: State)
    requires i < |parts| && Reported(s)
    ensures Reported(Visit(parts, i, at, live, o, s).0)
    decreases parts, |parts| - i, 0
  {
    match parts[i]
    case Single(leaf) => EmitReported(s, leaf, i, at, live);
    case Multi(_, _, children) =>
      if !Reuses(parts[i], at) {
        ParseReported(children, Below(parts[i], at), live, o, s.(parts := s.parts + 1));
      }
  }

  lemma {:induction false} LoopReported(parts: seq<Part>, i: nat, at: Place, live: Live, o: Options, s: State)
    requires i <= |parts| && Reported(s)
    ensures Reported(Loop(parts, i, at, live, o, s).state)
    decreases parts, |parts| - i
  {
    if i < |parts| && s.parts < o.maxParts {
      var (s', live') := Visit(parts, i, at, live, o, s);
      VisitReported(parts, i, at, live, o, s);
      LoopReported(parts, i + 1, at, live', o, s');
    }
  }

  lemma {:induction false} ParseReported(parts: seq<Part>, at: Place, live: Live, o: Options, s: State)
    requires Reported(s)
    ensures Reported(Parse(parts, at, live, o, s))
    decreases parts, |parts| + 1
  {
    if at.depth <= o.maxDepth {
      LoopReported(parts, 0, at, live, o, s);
      var r := Loop(parts, 0, at, live, o, s);
      FallbackReported(r.state, at, r.live, |s.text|, |s.html|);
    }
  }

  // ------------------------------------------------------------------
  // The promise to the reader of a parsed message
  // ------------------------------------------------------------------

  /** Where `bodyStructure` has the leaf the flat walk numbers `n`: as many places later as
      there are stubs before it. */
  function StructureId(root: Part, o: Options, n: nat): nat
    requires n >= 1
  {
    n + Delay(AllSpots(root, o), n - 1)
  }

  lemma OrderedFaithful(list: seq<BodyPart>, table: seq<Entry>, upTo: nat)
    requires Ordered(list, table, upTo)
    ensures forall p :: p in list ==> 1 <= p.id <= upTo && table[p.id - 1].Item? && table[p.id - 1].leaf == p.leaf
  {
  }

  lemma PartIsNumbered(root: Part, o: Options, p: BodyPart)
    requires p in Walk(root, o).text || p in Walk(root, o).html
    ensures 1 <= p.id <= |Table(root, o)|
    ensures Table(root, o)[p.id - 1].Item? && Table(root, o)[p.id - 1].leaf == p.leaf
    ensures p.id in Walk(root, o).problems <==> p.leaf.encodingProblem
  {
    var s, table := Walk(root, o), Table(root, o);
    WalkPlacesEveryLeaf(root, o);
    OrderedFaithful(s.text, table, s.nextId);
    OrderedFaithful(s.html, table, s.nextId);
    ParseReported([root], ROOT, BOTH, o, EMPTY);
    if p.id in s.problems {
      var q :| (q in s.text || q in s.html) && q.leaf.encodingProblem && q.id == p.id;
    }
  }

  /** A part of either body is the leaf of `bodyStructure` under that id. */
  lemma PartIsStructureLeaf(root: Part, o: Options, p: BodyPart)
    requires o.maxParts >= 1 && !Walk(root, o).ambiguous
    requires p in Walk(root, o).text || p in Walk(root, o).html
    ensures p.id >= 1
    ensures var leaves, k := LeavesOf(BodyStructure(root, o)), StructureId(root, o, p.id);
            1 <= k <= |leaves| && leaves[k - 1] == LeafNode(k, p.leaf)
    ensures !StubComesFirst(AllSpots(root, o), o.maxParts) ==> StructureId(root, o, p.id) == p.id
    ensures p.id in Walk(root, o).problems <==> p.leaf.encodingProblem
  {
    var spots := AllSpots(root, o);
    PartIsNumbered(root, o, p);
    StructureFollowsSpots(root, o);
    ShownAreNumbered(spots, o.maxParts);
    KeptAt(spots, o.maxParts, 0, p.id - 1);
    if !StubComesFirst(spots, o.maxParts) {
      NoStubNoDelay(spots, o.maxParts, p.id - 1);
    }
  }

  /** `v` is the text of the leaf under id `k`, line by line, with its encoding flag. */
  ghost predicate HoldsTextOf(v: BodyValue, leaves: seq<Node>, k: nat) {
    && 1 <= k <= |leaves|
    && leaves[k - 1].LeafNode? && leaves[k - 1].id == k && "text/" <= leaves[k - 1].leaf.ctype
    && HasTheLinesOf(v.value, leaves[k - 1].leaf.content)
    && v.isEncodingProblem == leaves[k - 1].leaf.encodingProblem
  }

  lemma PartHoldsItsText(root: Part, o: Options, p: BodyPart)
    requires o.maxParts >= 1 && !Walk(root, o).ambiguous && "text/" <= p.leaf.ctype
    requires p in Walk(root, o).text || p in Walk(root, o).html
    ensures p.id >= 1
    ensures var leaves, v := LeavesOf(BodyStructure(root, o)), ValueOf(p, Walk(root, o).problems);
            && HoldsTextOf(v, leaves, StructureId(root, o, p.id))
            && (!StubComesFirst(AllSpots(root, o), o.maxParts) ==> HoldsTextOf(v, leaves, p.id))
  {
    PartIsStructureLeaf(root, o, p);
    NormaliseHasTheLines(p.leaf.content);
  }

  lemma SameIdSamePart(root: Part, o: Options, p: BodyPart, q: BodyPart)
    requires p in Walk(root, o).text || p in Walk(root, o).html
    requires q in Walk(root, o).text || q in Walk(root, o).html
    requires p.id == q.id
    ensures p == q
  {
    PartIsNumbered(root, o, p);
    PartIsNumbered(root, o, q);
  }

  /** For every message and any caps, the value under key n of `bodyValues` is the text of one
      leaf of `bodyStructure`, its lines unchanged and one LF between each two, with the
      encoding flag; and every text leaf of either body is there.  That leaf has id n plus
      the number of stubs before it, hence id n on every message where no leaf one level
      below the depth cap precedes a numbered one. */
  lemma BodyValuesIndexTheStructure(root: Part, o: Options)
    requires o.maxParts >= 1
    ensures var m := ParseMessage(root, o);
            var values, leaves := Values(m.text + m.html, m.problems), LeavesOf(BodyStructure(root, o));
            && (forall n :: n in values ==> n >= 1 && HoldsTextOf(values[n], leaves, StructureId(root, o, n)))
            && (!StubComesFirst(AllSpots(root, o), o.maxParts) ==>
                  forall n :: n in values ==> n >= 1 && HoldsTextOf(values[n], leaves, n))
            && (forall p :: p in m.text + m.html && "text/" <= p.leaf.ctype ==> p.id in values)
  {
    var m := ParseMessage(root, o);
    var all := m.text + m.html;
    if Walk(root, o).ambiguous {
      assert all == [];
    } else {
      forall p, q | p in all && q in all && p.id == q.id ensures p == q {
        SameIdSamePart(root, o, p, q);
      }
      ValuesHoldTextParts(all, m.problems);
      var values, leaves := Values(all, m.problems), LeavesOf(BodyStructure(root, o));
      forall n | n in values
        ensures n >= 1 && HoldsTextOf(values[n], leaves, StructureId(root, o, n))
        ensures !StubComesFirst(AllSpots(root, o), o.maxParts) ==> HoldsTextOf(values[n], leaves, n)
      {
        var p :| p in all && p.id == n && IsText(p.leaf.ctype);
        PartHoldsItsText(root, o, p);
      }
    }
  }
}
