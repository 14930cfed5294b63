/** Where the flat walk puts each part of a message, told from the part's own fields and its
    path alone. */
module MimeRouting {
  import opened Wrappers
  import opened MimeTree
  import opened MimeWalk
  import opened MimePlacement
  import opened MimePaths

  predicate IsLeafAt(root: Part, path: seq<nat>) {
    PartAt([root], path).Some? && PartAt([root], path).value.Single?
  }

  /** How many of the paths lead to a leaf. */
  function Leaves(root: Part, paths: seq<seq<nat>>): nat {
    if paths == [] then 0
    else Leaves(root, paths[..|paths| - 1]) + if IsLeafAt(root, paths[|paths| - 1]) then 1 else 0
  }

  /** Where a leaf belongs, if it is number `index` in a `kind` container beneath `alts`
      alternatives, and where it is.  A leaf declared an attachment, one of another type, one
      that follows in a related container, a named text that follows, and media directly in
      an alternative are attachments and nothing else.  Any other leaf is no attachment: its
      type has a list of its own, media has two, and it is in those that are still open, in
      some body if one is, and in both bodies outside every alternative. */
  ghost predicate Routed(
    leaf: Leaf, index: nat, kind: string, alts: nat, textOpen: bool, htmlOpen: bool,
    inText: bool, inHtml: bool, inAtt: bool)
  {
    var plain, rich := leaf.ctype == "text/plain", leaf.ctype == "text/html";
    var media := "image/" <= leaf.ctype || "audio/" <= leaf.ctype || "video/" <= leaf.ctype;
    var attached :=
      || leaf.disposition == "attachment"
      || !(plain || rich || media)
      || (index > 0 && kind == "related")
      || (index > 0 && !media && leaf.name != "")
      || (media && kind == "alternative");
    && (inAtt <==> attached)
    && (attached ==> !inText && !inHtml)
    && (!attached && alts == 0 ==> inText && inHtml)
    && (!attached && !rich && textOpen ==> inText)
    && (!attached && !plain && htmlOpen ==> inHtml)
    && (!attached ==> (inText || inHtml <==> (!rich && textOpen) || (!plain && htmlOpen)))
  }

  /** The fate of an entry, without the walk's own terms. */
  lemma FateIsRouted(e: Entry, inText: bool, inHtml: bool, inAtt: bool)
    requires e.Item? && Fate(e, inText, inHtml, inAtt)
    ensures Routed(e.leaf, e.index, e.kind, e.alts, e.live.text, e.live.html, inText, inHtml, inAtt)
  {
    assert "text/plain"[0] != "image/"[0] && "text/plain"[0] != "audio/"[0] && "text/plain"[0] != "video/"[0];
    assert "text/html"[0] != "image/"[0] && "text/html"[0] != "audio/"[0] && "text/html"[0] != "video/"[0];
    assert |"alternative"| != |"related"|;
  }

  /** The entries up to number `k` hold as many leaves as the paths they describe. */
  lemma {:induction false} LeavesAreNumbered(
    root: Part, entries: seq<Entry>, paths: seq<seq<nat>>, budget: nat, k: nat)
    requires DescribesAll(entries, [root], paths, [], BOTH) && k <= |entries| && k <= budget
    ensures |Numbered(entries[..k], budget)| == Leaves(root, paths[..k])
  {
    if k > 0 {
      LeavesAreNumbered(root, entries, paths, budget, k - 1);
      assert paths[..k][..k - 1] == paths[..k - 1];
      OneMoreNumbered(entries, budget, k - 1);
      assert Describes(entries[k - 1], [root], paths[k - 1], [], BOTH);
    }
  }

  lemma OneMoreNumbered(entries: seq<Entry>, budget: nat, k: nat)
    requires k < |entries| && k < budget
    ensures |Numbered(entries[..k + 1], budget)|
         == |Numbered(entries[..k], budget)| + if entries[k].Item? then 1 else 0
  {
    assert entries[..k + 1] == entries[..k] + [entries[k]];
    NumberedConcat(entries[..k], [entries[k]], budget);
    OneNumbered(entries[k], Sub(budget, k));
  }

  lemma OneNumbered(e: Entry, budget: nat)
    requires budget > 0
    ensures Numbered([e], budget) == if e.Item? then [e] else []
  {
    assert [e][1..] == [];
  }

  /** A leaf among the first `budget` entries comes after the leaves before it. */
  lemma NumberedAt(entries: seq<Entry>, budget: nat, k: nat)
    requires k < |entries| && k < budget && entries[k].Item?
    ensures |Numbered(entries[..k + 1], budget)| == |Numbered(entries[..k], budget)| + 1
    ensures |Numbered(entries[..k], budget)| < |Numbered(entries, budget)|
    ensures Numbered(entries, budget)[|Numbered(entries[..k], budget)|] == entries[k]
  {
    var before, e, after := entries[..k], entries[k], entries[k + 1..];
    assert entries[..k + 1] == before + [e] && entries == (before + [e]) + after;
    NumberedConcat(before, [e], budget);
    OneNumbered(e, Sub(budget, k));
    NumberedConcat(before + [e], after, budget);
  }

  lemma HoldsItsNumber(list: seq<BodyPart>, table: seq<Entry>, upTo: nat, n: nat)
    requires Ordered(list, table, upTo) && 1 <= n <= upTo && table[n - 1].Item?
    ensures n in Ids(list) <==> BodyPart(n, table[n - 1].leaf) in list
  {
    if n in Ids(list) {
      var p :| p in list && p.id == n;
    }
  }

  /** The leaf at path number `k` has its place in the table. */
  lemma TableAt(root: Part, o: Options, k: nat)
    requires k < |Paths([root], 0, [], o)| && k < o.maxParts
    requires IsLeafAt(root, Paths([root], 0, [], o)[k])
    ensures var path := Paths([root], 0, [], o)[k];
            var n := Leaves(root, Paths([root], 0, [], o)[..k + 1]);
            && 1 <= n <= |Table(root, o)|
            && Table(root, o)[n - 1].Item? && Table(root, o)[n - 1].leaf == PartAt([root], path).value.leaf
            && Describes(Table(root, o)[n - 1], [root], path, [], BOTH)
  {
    var entries, paths := Entries(root, o), Paths([root], 0, [], o);
    EntriesAreTheParts(root, o);
    assert Describes(entries[k], [root], paths[k], [], BOTH);
    LeavesAreNumbered(root, entries, paths, o.maxParts, k);
    LeavesAreNumbered(root, entries, paths, o.maxParts, k + 1);
    NumberedAt(entries, o.maxParts, k);
  }

  /** For every message and any caps: the walk goes through the first `maxParts` parts that
      are reached, in document order, and numbers the leaves among them 1, 2, ... in that
      order; it puts each under its number where `Routed` says. */
  lemma EveryLeafIsRouted(root: Part, o: Options, k: nat)
    requires k < |Paths([root], 0, [], o)| && k < o.maxParts
    requires IsLeafAt(root, Paths([root], 0, [], o)[k])
    ensures var path := Paths([root], 0, [], o)[k];
            var leaf, n := PartAt([root], path).value.leaf, Leaves(root, Paths([root], 0, [], o)[..k + 1]);
            var chain, s := Chain([root], path, []), Walk(root, o);
            && 1 <= n <= s.nextId && path != []
            && Routed(leaf, path[|path| - 1], KindIn(chain), AlternativesIn(chain),
                      !ShutAlong([root], path, [], "text/html"), !ShutAlong([root], path, [], "text/plain"),
                      BodyPart(n, leaf) in s.text, BodyPart(n, leaf) in s.html, BodyPart(n, leaf) in s.att)
  {
    var paths := Paths([root], 0, [], o);
    TableAt(root, o, k);
    NumberIsRouted(root, o, Leaves(root, paths[..k + 1]));
  }

  /** The same of a number handed out. */
  lemma NumberIsRouted(root: Part, o: Options, n: nat)
    requires 1 <= n <= |Table(root, o)|
    ensures var s, e := Walk(root, o), Table(root, o)[n - 1];
            && e.Item? && n <= s.nextId
            && Routed(e.leaf, e.index, e.kind, e.alts, e.live.text, e.live.html,
                      BodyPart(n, e.leaf) in s.text, BodyPart(n, e.leaf) in s.html, BodyPart(n, e.leaf) in s.att)
  {
    var s, table := Walk(root, o), Table(root, o);
    WalkPlacesEveryLeaf(root, o);
    assert Placed(table, n, s);
    HoldsItsNumber(s.text, table, s.nextId, n);
    HoldsItsNumber(s.html, table, s.nextId, n);
    HoldsItsNumber(s.att, table, s.nextId, n);
    FateIsRouted(table[n - 1], n in Ids(s.text), n in Ids(s.html), n in Ids(s.att));
  }

  /** The first `m` paths lead to a leaf for every number up to how many there are. */
  lemma {:induction false} NumberIsALeaf(root: Part, paths: seq<seq<nat>>, m: nat, n: nat) returns (k: nat)
    requires m <= |paths| && 1 <= n <= Leaves(root, paths[..m])
    ensures k < m && IsLeafAt(root, paths[k]) && Leaves(root, paths[..k + 1]) == n
  {
    assert paths[..m][..m - 1] == paths[..m - 1];
    if n <= Leaves(root, paths[..m - 1]) {
      k := NumberIsALeaf(root, paths, m - 1, n);
    } else {
      k := m - 1;
    }
  }

  /** How far the walk gets, and how many numbers it hands out. */
  lemma Numbers(root: Part, o: Options)
    ensures var s, paths := Walk(root, o), Paths([root], 0, [], o);
            && s.parts == (if |paths| < o.maxParts then |paths| else o.maxParts)
            && s.nextId == Leaves(root, paths[..s.parts])
  {
    var entries, s := Entries(root, o), Walk(root, o);
    EntriesAreTheParts(root, o);
    WalkPlacesEveryLeaf(root, o);
    LeavesAreNumbered(root, entries, Paths([root], 0, [], o), o.maxParts, s.parts);
    NumberedPrefix(entries, o.maxParts);
  }

  lemma NumberedPrefix(entries: seq<Entry>, budget: nat)
    ensures Numbered(entries[..Min(|entries|, budget)], budget) == Numbered(entries, budget)
  {
    var m := Min(|entries|, budget);
    assert entries == entries[..m] + entries[m..];
    NumberedConcat(entries[..m], entries[m..], budget);
    assert Numbered(entries[m..], Sub(budget, m)) == [];
  }

  lemma PartIsSound(list: seq<BodyPart>, table: seq<Entry>, upTo: nat, p: BodyPart)
    requires Ordered(list, table, upTo) && p in list
    ensures 1 <= p.id <= upTo && table[p.id - 1].Item? && table[p.id - 1].leaf == p.leaf
  {
  }

  /** `p` is the leaf at path number `k`, under the number of leaves up to there. */
  ghost predicate StandsAt(root: Part, o: Options, k: nat, p: BodyPart) {
    var paths := Paths([root], 0, [], o);
    && k < |paths| && k < o.maxParts && IsLeafAt(root, paths[k])
    && p == BodyPart(Leaves(root, paths[..k + 1]), PartAt([root], paths[k]).value.leaf)
  }

  lemma TableStandsAt(root: Part, o: Options, p: BodyPart)
    requires 1 <= p.id <= |Table(root, o)|
    requires Table(root, o)[p.id - 1].Item? && Table(root, o)[p.id - 1].leaf == p.leaf
    ensures exists k :: StandsAt(root, o, k, p)
  {
    WalkPlacesEveryLeaf(root, o);
    Numbers(root, o);
    var k := NumberIsALeaf(root, Paths([root], 0, [], o), Walk(root, o).parts, p.id);
    TableAt(root, o, k);
    assert StandsAt(root, o, k, p);
  }

  /** And nothing else is in the lists: every entry is one of the leaves gone through, under
      its number. */
  lemma NothingElseIsListed(root: Part, o: Options, p: BodyPart)
    requires p in Walk(root, o).text || p in Walk(root, o).html || p in Walk(root, o).att
    ensures exists k :: StandsAt(root, o, k, p)
  {
    var s := Walk(root, o);
    WalkPlacesEveryLeaf(root, o);
    var list := if p in s.text then s.text else if p in s.html then s.html else s.att;
    PartIsSound(list, Table(root, o), s.nextId, p);
    TableStandsAt(root, o, p);
  }

  lemma ListsAreInOrder(root: Part, o: Options, list: seq<BodyPart>)
    requires list in {Walk(root, o).text, Walk(root, o).html, Walk(root, o).att}
    ensures forall j, k :: 0 <= j < k < |list| ==> list[j].id < list[k].id
  {
    WalkPlacesEveryLeaf(root, o);
  }

  // ------------------------------------------------------------------
  // Reused boundaries
  // ------------------------------------------------------------------

  lemma {:induction false} AmbiguousMeansReuse(entries: seq<Entry>, budget: nat)
    ensures Ambiguous(entries, budget) <==>
            exists k :: 0 <= k < |entries| && k < budget && entries[k] == Container(true)
  {
    if entries != [] && budget > 0 {
      AmbiguousMeansReuse(entries[1..], budget - 1);
      if k :| 0 <= k < |entries| && k < budget && entries[k] == Container(true) {
        assert k > 0 ==> entries[1..][k - 1] == Container(true);
      }
      if k :| 0 <= k < |entries[1..]| && k < budget - 1 && entries[1..][k] == Container(true) {
        assert entries[k + 1] == Container(true);
      }
    }
  }

  /** A message is emptied if one of the parts gone through is a container that declares a
      boundary a container around it declares too, and otherwise has what the walk collected. */
  lemma ReuseIsNoticed(root: Part, o: Options)
    ensures var s, paths := Walk(root, o), Paths([root], 0, [], o);
            ParseMessage(root, o) ==
              if exists k :: 0 <= k < |paths| && k < o.maxParts && PartAt([root], paths[k]).Some?
                     && Redeclares(PartAt([root], paths[k]).value, Chain([root], paths[k], []))
              then Content([], [], [], {})
              else Content(s.text, s.html, s.att, s.problems)
  {
    var entries, paths := Entries(root, o), Paths([root], 0, [], o);
    EntriesAreTheParts(root, o);
    ReuseClearsTheMessage(root, o);
    AmbiguousMeansReuse(entries, o.maxParts);
    forall k | 0 <= k < |paths|
      ensures entries[k] == Container(true) <==>
              PartAt([root], paths[k]).Some? && Redeclares(PartAt([root], paths[k]).value, Chain([root], paths[k], []))
    {
      assert Describes(entries[k], [root], paths[k], [], BOTH);
    }
  }
}
