/** MIME trees as the standard library hands them to the body walks, and the
    reference enumeration both walks are measured against. */
module MimeTree {

  /** What a non-multipart part carries.  `disposition` and `name` are "" when
      absent, and `ctype` is already lower case. */
  datatype Leaf = Leaf(
    ctype: string,
    disposition: string,
    name: string,
    content: string,
    encodingProblem: bool)

  /** A part is a container exactly when its main type is `multipart`, so a
      `message/rfc822` part is a `Single`.  `boundary` is "" when not declared. */
  datatype Part =
    | Single(leaf: Leaf)
    | Multi(subtype: string, boundary: string, children: seq<Part>)

  datatype Options = Options(maxDepth: nat, maxParts: nat)

  const ALTERNATIVE := "alternative"

  predicate IsInlineMedia(ctype: string) {
    "image/" <= ctype || "audio/" <= ctype || "video/" <= ctype
  }

  /** Whether a leaf at position `index` below a `kind` container is body text
      rather than an attachment. */
  predicate IsInline(leaf: Leaf, index: nat, kind: string) {
    && leaf.disposition != "attachment"
    && (leaf.ctype == "text/plain" || leaf.ctype == "text/html" || IsInlineMedia(leaf.ctype))
    && (|| index == 0
        || (kind != "related" && (IsInlineMedia(leaf.ctype) || leaf.name == "")))
  }

  /** Where a list of sibling parts sits: the type of its container, how many
      `multipart/alternative` containers enclose it (the container included), its
      depth, and the boundaries of the containers above it. */
  datatype Place = Place(kind: string, alts: nat, depth: nat, parents: seq<string>) {
    ghost predicate Valid() {
      kind == ALTERNATIVE ==> alts > 0
    }
  }

  const ROOT := Place("mixed", 0, 0, [])

  predicate Reuses(p: Part, at: Place) {
    p.Multi? && p.boundary != "" && p.boundary in at.parents
  }

  /** The place of the children of the container `p`. */
  function Below(p: Part, at: Place): (r: Place)
    requires p.Multi?
    ensures r.Valid()
    ensures r.depth == at.depth + 1
  {
    var kind := if p.subtype == "" then "mixed" else p.subtype;
    Place(kind,
          if kind == ALTERNATIVE then at.alts + 1 else at.alts,
          at.depth + 1,
          if p.boundary != "" then at.parents + [p.boundary] else at.parents)
  }

  // ------------------------------------------------------------------
  // Lists that are open
  // ------------------------------------------------------------------

  /** Which of the two body lists are open. */
  datatype Live = Live(text: bool, html: bool)

  const BOTH := Live(true, true)

  /** Sibling `j` is an inline leaf of type `ctype` below an alternative, without being
      the alternative's own child. */
  predicate Shuts(parts: seq<Part>, j: nat, at: Place, ctype: string)
    requires j < |parts|
  {
    && at.alts > 0 && at.kind != ALTERNATIVE
    && parts[j].Single? && parts[j].leaf.ctype == ctype && IsInline(parts[j].leaf, j, at.kind)
  }

  predicate ShutBefore(parts: seq<Part>, i: nat, at: Place, ctype: string)
    requires i <= |parts|
  {
    exists j :: 0 <= j < i && Shuts(parts, j, at, ctype)
  }

  /** The lists open in front of sibling `i`, if `live` are those open in front of all the
      siblings: an earlier text/html leaf shuts the text list, an earlier text/plain leaf
      the HTML list. */
  function OpenAt(parts: seq<Part>, i: nat, at: Place, live: Live): Live
    requires i <= |parts|
  {
    Live(live.text && !ShutBefore(parts, i, at, "text/html"),
         live.html && !ShutBefore(parts, i, at, "text/plain"))
  }

  // ------------------------------------------------------------------
  // The reference enumeration
  // ------------------------------------------------------------------

  /** `live` are the lists no earlier sibling of the leaf, or of a container around it,
      has shut. */
  datatype Entry =
    | Container(reused: bool)
    | Item(leaf: Leaf, index: nat, kind: string, alts: nat, live: Live)

  /** Pre-order listing of the parts from sibling `i` on that lie within the depth
      cap and not beneath a container re-declaring an ancestor's boundary. */
  function Listing(parts: seq<Part>, i: nat, at: Place, live: Live, o: Options): seq<Entry>
    requires i <= |parts|
    decreases parts, |parts| - i
  {
    if at.depth > o.maxDepth || i == |parts| then []
    else
      Head(parts, i, at, live, o) + Listing(parts, i + 1, at, live, o)
  }

  /** The part of the listing contributed by sibling `i` alone. */
  function Head(parts: seq<Part>, i: nat, at: Place, live: Live, o: Options): (r: seq<Entry>)
    requires i < |parts|
    ensures |r| > 0
    decreases parts, |parts| - i, 0
  {
    match parts[i]
    case Single(leaf) => [Item(leaf, i, at.kind, at.alts, OpenAt(parts, i, at, live))]
    case Multi(_, _, children) =>
      if Reuses(parts[i], at) then [Container(true)]
      else [Container(false)] + Listing(children, 0, Below(parts[i], at), OpenAt(parts, i, at, live), o)
  }

  /** The listing of a whole message. */
  function Entries(root: Part, o: Options): seq<Entry> {
    Listing([root], 0, ROOT, BOTH, o)
  }

  function IfItem(e: Entry): seq<Entry> {
    if e.Item? then [e] else []
  }

  /** The leaves among the first `budget` entries; leaf number n (counting from 1)
      is the part that must carry partId n. */
  function Numbered(entries: seq<Entry>, budget: nat): (r: seq<Entry>)
    ensures |r| <= budget && |r| <= |entries|
  {
    if entries == [] || budget == 0 then [] else IfItem(entries[0]) + Numbered(entries[1..], budget - 1)
  }

  /** Whether one of the first `budget` entries re-declares an ancestor's boundary. */
  predicate Ambiguous(entries: seq<Entry>, budget: nat) {
    if entries == [] || budget == 0 then false
    else entries[0] == Container(true) || Ambiguous(entries[1..], budget - 1)
  }

  function Sub(a: nat, b: nat): nat {
    if a < b then 0 else a - b
  }

  function Min(a: nat, b: nat): nat {
    if a < b then a else b
  }

  lemma Associative(a: seq<Entry>, b: seq<Entry>, c: seq<Entry>)
    ensures a + (b + c) == a + b + c
  {
  }

  lemma {:induction false} NumberedConcat(p: seq<Entry>, q: seq<Entry>, budget: nat)
    ensures Numbered(p + q, budget) == Numbered(p, budget) + Numbered(q, Sub(budget, |p|))
    decreases p
  {
    if p == [] {
      assert p + q == q;
    } else if budget > 0 {
      assert (p + q)[0] == p[0] && (p + q)[1..] == p[1..] + q;
      NumberedConcat(p[1..], q, budget - 1);
      Associative(IfItem(p[0]), Numbered(p[1..], budget - 1), Numbered(q, Sub(budget, |p|)));
    }
  }

  lemma {:induction false} AmbiguousConcat(p: seq<Entry>, q: seq<Entry>, budget: nat)
    ensures Ambiguous(p + q, budget) == (Ambiguous(p, budget) || Ambiguous(q, Sub(budget, |p|)))
    decreases p
  {
    if p == [] {
      assert p + q == q;
    } else if budget == 0 {
    } else {
      assert (p + q)[0] == p[0] && (p + q)[1..] == p[1..] + q;
      AmbiguousConcat(p[1..], q, budget - 1);
    }
  }
}
