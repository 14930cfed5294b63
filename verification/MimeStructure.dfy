/** The recursive `bodyStructure` builder and its agreement with the flat walk. */
module MimeStructure {
  import opened MimeTree
  import opened MimeWalk
  import opened MimePlacement

  /** A node of `bodyStructure`; containers carry no partId.  The stubs are what is
      left of parts beyond a cap: a leaf stub has an id but no content. */
  datatype Node =
    | LeafNode(id: nat, leaf: Leaf)
    | LeafStub(id: nat, ctype: string)
    | MultiNode(subtype: string, subParts: seq<Node>)
    | MultiStub(subtype: string)

  datatype Count = Count(parts: nat, nextId: nat)

  function Build(part: Part, depth: nat, o: Options, c: Count): (Node, Count)
    decreases part, 0
  {
    var c1 := if part.Single? then c.(nextId := c.nextId + 1) else c;
    if depth > o.maxDepth || c.parts >= o.maxParts then
      match part
      case Single(leaf) => (LeafStub(c1.nextId, leaf.ctype), c1)
      case Multi(subtype, _, _) => (MultiStub(subtype), c1)
    else
      var c2 := c1.(parts := c1.parts + 1);
      match part
      case Single(leaf) => (LeafNode(c2.nextId, leaf), c2)
      case Multi(subtype, _, children) =>
        var (subs, c3) := BuildSubs(children, 0, depth + 1, o, c2);
        (MultiNode(subtype, subs), c3)
  }

  /** The nodes of the siblings from `i` on, up to the part cap. */
  function BuildSubs(parts: seq<Part>, i: nat, depth: nat, o: Options, c: Count): (seq<Node>, Count)
    requires i <= |parts|
    decreases parts, |parts| - i
  {
    if i == |parts| || c.parts >= o.maxParts then ([], c)
    else
      var (node, c1) := Build(parts[i], depth, o, c);
      var (rest, c2) := BuildSubs(parts, i + 1, depth, o, c1);
      ([node] + rest, c2)
  }

  function BodyStructure(root: Part, o: Options): Node {
    Build(root, 0, o, Count(0, 0)).0
  }

  /** The builder as it runs, bumping the shared counter. */
  method BuildBodyStructureNode(part: Part, depth: nat, counter: Counter, o: Options) returns (node: Node)
    modifies counter
    ensures (node, Count(counter.parts, counter.nextId))
         == Build(part, depth, o, old(Count(counter.parts, counter.nextId)))
    decreases part
  {
    if part.Single? {
      counter.nextId := counter.nextId + 1;
    }
    if depth > o.maxDepth || counter.parts >= o.maxParts {
      match part
      case Single(leaf) => return LeafStub(counter.nextId, leaf.ctype);
      case Multi(subtype, _, _) => return MultiStub(subtype);
    }
    counter.parts := counter.parts + 1;
    match part
    case Single(leaf) =>
      return LeafNode(counter.nextId, leaf);
    case Multi(subtype, _, children) =>
      var subNodes := BuildSubNodes(children, depth + 1, counter, o);
      return MultiNode(subtype, subNodes);
  }

  /** The loop over the children of a container, up to the part cap. */
  method BuildSubNodes(children: seq<Part>, depth: nat, counter: Counter, o: Options) returns (subNodes: seq<Node>)
    modifies counter
    ensures (subNodes, Count(counter.parts, counter.nextId))
         == BuildSubs(children, 0, depth, o, old(Count(counter.parts, counter.nextId)))
    decreases children
  {
    ghost var all := BuildSubs(children, 0, depth, o, Count(counter.parts, counter.nextId));
    subNodes := [];
    var i := 0;
    assert [] + all.0 == all.0;
    while i < |children|
      invariant 0 <= i <= |children|
      invariant var (rest, c) := BuildSubs(children, i, depth, o, Count(counter.parts, counter.nextId));
                (subNodes + rest, c) == all
    {
      if counter.parts >= o.maxParts {
        break;
      }
      ghost var rest := BuildSubs(children, i, depth, o, Count(counter.parts, counter.nextId)).0;
      var child := BuildBodyStructureNode(children[i], depth, counter, o);
      assert subNodes + rest == subNodes + [child] + rest[1..];
      subNodes := subNodes + [child];
      i := i + 1;
    }
    assert subNodes + [] == subNodes;
  }

  // ------------------------------------------------------------------
  // Reading the built tree
  // ------------------------------------------------------------------

  /** The leaf nodes of a list of nodes, in document order. */
  function Leaves(nodes: seq<Node>): seq<Node>
    decreases nodes
  {
    if nodes == [] then [] else LeavesOf(nodes[0]) + Leaves(nodes[1..])
  }

  function LeavesOf(node: Node): seq<Node>
    decreases node
  {
    match node
    case MultiNode(_, subs) => Leaves(subs)
    case MultiStub(_) => []
    case _ => [node]
  }

  /** Those of the leaf nodes that are no stubs. */
  function Real(nodes: seq<Node>): seq<Node> {
    if nodes == [] then []
    else (if nodes[0].LeafNode? then [nodes[0]] else []) + Real(nodes[1..])
  }

  // ------------------------------------------------------------------
  // What the depth cap leaves behind
  // ------------------------------------------------------------------

  /** A part the builder comes to: one within the depth cap, or a leaf one level below it,
      for which it leaves a stub with an id of its own. */
  datatype Spot = Within(entry: Entry) | TooDeep(leaf: Leaf)

  /** The pre-order listing with the leaves just below the depth cap. */
  function Spots(parts: seq<Part>, i: nat, at: Place, live: Live, o: Options): seq<Spot>
    requires i <= |parts|
    decreases parts, |parts| - i
  {
    if i == |parts| then [] else SpotsOf(parts, i, at, live, o) + Spots(parts, i + 1, at, live, o)
  }

  function SpotsOf(parts: seq<Part>, i: nat, at: Place, live: Live, o: Options): seq<Spot>
    requires i < |parts|
    decreases parts, |parts| - i, 0
  {
    match parts[i]
    case Single(leaf) =>
      if at.depth > o.maxDepth then [TooDeep(leaf)]
      else [Within(Item(leaf, i, at.kind, at.alts, OpenAt(parts, i, at, live)))]
    case Multi(_, _, children) =>
      if at.depth > o.maxDepth then []
      else if Reuses(parts[i], at) then [Within(Container(true))]
      else [Within(Container(false))] + Spots(children, 0, Below(parts[i], at), OpenAt(parts, i, at, live), o)
  }

  function AllSpots(root: Part, o: Options): seq<Spot> {
    Spots([root], 0, ROOT, BOTH, o)
  }

  function IfWithin(spot: Spot): seq<Entry> {
    if spot.Within? then [spot.entry] else []
  }

  function Withins(spots: seq<Spot>): seq<Entry> {
    if spots == [] then [] else IfWithin(spots[0]) + Withins(spots[1..])
  }

  lemma {:induction false} WithinsConcat(p: seq<Spot>, q: seq<Spot>)
    ensures Withins(p + q) == Withins(p) + Withins(q)
    decreases p
  {
    if p == [] {
      assert p + q == q;
    } else {
      assert (p + q)[0] == p[0] && (p + q)[1..] == p[1..] + q;
      WithinsConcat(p[1..], q);
    }
  }

  /** Without the leaves below the depth cap it is the listing the flat walk follows. */
  lemma {:induction false} SpotsOfHoldHead(parts: seq<Part>, i: nat, at: Place, live: Live, o: Options)
    requires i < |parts| && at.depth <= o.maxDepth
    ensures Withins(SpotsOf(parts, i, at, live, o)) == Head(parts, i, at, live, o)
    decreases parts, |parts| - i, 0
  {
    if parts[i].Multi? && !Reuses(parts[i], at) {
      var below, now := Below(parts[i], at), OpenAt(parts, i, at, live);
      SpotsHoldListing(parts[i].children, 0, below, now, o);
      WithinsConcat([Within(Container(false))], Spots(parts[i].children, 0, below, now, o));
      assert Withins([Within(Container(false))]) == [Container(false)];
    }
  }

  lemma {:induction false} SpotsHoldListing(parts: seq<Part>, i: nat, at: Place, live: Live, o: Options)
    requires i <= |parts|
    ensures Withins(Spots(parts, i, at, live, o)) == Listing(parts, i, at, live, o)
    decreases parts, |parts| - i
  {
    if i < |parts| {
      SpotsHoldListing(parts, i + 1, at, live, o);
      WithinsConcat(SpotsOf(parts, i, at, live, o), Spots(parts, i + 1, at, live, o));
      if at.depth <= o.maxDepth {
        SpotsOfHoldHead(parts, i, at, live, o);
      }
    }
  }

  // ------------------------------------------------------------------
  // The leaves of the built tree
  // ------------------------------------------------------------------

  /** The leaf nodes for `spots` under the ids after `from`, up to where `budget` parts
      within the depth cap have been counted. */
  function Kept(spots: seq<Spot>, budget: nat, from: nat): seq<Node> {
    if spots == [] || budget == 0 then []
    else
      match spots[0]
      case TooDeep(leaf) => [LeafStub(from + 1, leaf.ctype)] + Kept(spots[1..], budget, from + 1)
      case Within(Container(_)) => Kept(spots[1..], budget - 1, from)
      case Within(Item(leaf, _, _, _, _)) => [LeafNode(from + 1, leaf)] + Kept(spots[1..], budget - 1, from + 1)
  }

  lemma {:induction false} KeptConcat(p: seq<Spot>, q: seq<Spot>, budget: nat, from: nat)
    ensures Kept(p + q, budget, from)
         == Kept(p, budget, from) + Kept(q, Sub(budget, |Withins(p)|), from + |Kept(p, budget, from)|)
    decreases p
  {
    if p == [] {
      assert p + q == q;
    } else if budget > 0 {
      assert (p + q)[0] == p[0] && (p + q)[1..] == p[1..] + q;
      var node, left := NodeFor(p[0], from), if p[0].Within? then budget - 1 else budget;
      KeptFirst(p, budget, from);
      KeptFirst(p + q, budget, from);
      KeptConcat(p[1..], q, left, from + |node|);
      NodesAssociate(node, Kept(p[1..], left, from + |node|),
                     Kept(q, Sub(budget, |Withins(p)|), from + |Kept(p, budget, from)|));
    }
  }

  /** The leaf node for one spot, if it is a leaf. */
  function NodeFor(spot: Spot, from: nat): seq<Node> {
    match spot
    case TooDeep(leaf) => [LeafStub(from + 1, leaf.ctype)]
    case Within(e) => if e.Item? then [LeafNode(from + 1, e.leaf)] else []
  }

  lemma KeptFirst(spots: seq<Spot>, budget: nat, from: nat)
    requires spots != [] && budget > 0
    ensures var node, left := NodeFor(spots[0], from), if spots[0].Within? then budget - 1 else budget;
            Kept(spots, budget, from) == node + Kept(spots[1..], left, from + |node|)
  {
  }

  lemma NodesAssociate(a: seq<Node>, b: seq<Node>, c: seq<Node>)
    ensures a + (b + c) == a + b + c
  {
  }

  /** From `c` to `c'` the builder went through `spots`, counting at most `budget` parts,
      and left `leaves`. */
  ghost predicate Emitted(leaves: seq<Node>, c: Count, c': Count, spots: seq<Spot>, budget: nat) {
    && c'.parts == c.parts + Min(|Withins(spots)|, budget)
    && c'.nextId == c.nextId + |leaves|
    && leaves == Kept(spots, budget, c.nextId)
  }

  lemma EmittedBoth(l: seq<Node>, m: seq<Node>, c: Count, c': Count, c'': Count,
                    p: seq<Spot>, q: seq<Spot>, budget: nat)
    requires Emitted(l, c, c', p, budget) && Emitted(m, c', c'', q, Sub(budget, |Withins(p)|))
    ensures Emitted(l + m, c, c'', p + q, budget)
  {
    KeptConcat(p, q, budget, c.nextId);
    WithinsConcat(p, q);
  }

  lemma {:induction false} BuildFollowsSpots(parts: seq<Part>, i: nat, at: Place, live: Live, o: Options, c: Count)
    requires i < |parts| && c.parts < o.maxParts
    requires !Ambiguous(Withins(SpotsOf(parts, i, at, live, o)), o.maxParts - c.parts)
    ensures var (node, c') := Build(parts[i], at.depth, o, c);
            Emitted(LeavesOf(node), c, c', SpotsOf(parts, i, at, live, o), o.maxParts - c.parts)
    decreases parts, |parts| - i, 0
  {
    match parts[i]
    case Single(leaf) =>
      LeafFollows(leaf, at.depth, o, c, SpotsOf(parts, i, at, live, o)[0]);
    case Multi(_, _, children) =>
      if at.depth <= o.maxDepth {
        var below, now := Below(parts[i], at), OpenAt(parts, i, at, live);
        var here, rest := [Within(Container(false))], Spots(children, 0, below, now, o);
        assert !Reuses(parts[i], at);
        UnambiguousParts(here, rest, o.maxParts - c.parts);
        assert Withins(here) == [Container(false)];
        SubsFollowSpots(children, 0, below, now, o, c.(parts := c.parts + 1));
        ContainerFollows(parts[i], at.depth, o, c, rest);
      }
  }

  lemma LeafFollows(leaf: Leaf, depth: nat, o: Options, c: Count, spot: Spot)
    requires c.parts < o.maxParts
    requires if depth > o.maxDepth then spot == TooDeep(leaf)
             else spot.Within? && spot.entry.Item? && spot.entry.leaf == leaf
    ensures var (node, c') := Build(Single(leaf), depth, o, c);
            Emitted(LeavesOf(node), c, c', [spot], o.maxParts - c.parts)
  {
    assert [spot][1..] == [];
  }

  /** A container and then its children. */
  lemma ContainerFollows(part: Part, depth: nat, o: Options, c: Count, rest: seq<Spot>)
    requires part.Multi? && depth <= o.maxDepth && c.parts < o.maxParts
    requires var c1 := c.(parts := c.parts + 1);
             var (subs, c2) := BuildSubs(part.children, 0, depth + 1, o, c1);
             Emitted(Leaves(subs), c1, c2, rest, o.maxParts - c1.parts)
    ensures var (node, c') := Build(part, depth, o, c);
            Emitted(LeavesOf(node), c, c', [Within(Container(false))] + rest, o.maxParts - c.parts)
  {
    var here, c1 := [Within(Container(false))], c.(parts := c.parts + 1);
    var (subs, c2) := BuildSubs(part.children, 0, depth + 1, o, c1);
    assert here[1..] == [] && Withins(here) == [Container(false)];
    EmittedBoth([], Leaves(subs), c, c1, c2, here, rest, o.maxParts - c.parts);
    assert [] + Leaves(subs) == Leaves(subs);
  }

  lemma {:induction false} SubsFollowSpots(parts: seq<Part>, i: nat, at: Place, live: Live, o: Options, c: Count)
    requires i <= |parts| && c.parts <= o.maxParts
    requires !Ambiguous(Withins(Spots(parts, i, at, live, o)), o.maxParts - c.parts)
    ensures var (nodes, c') := BuildSubs(parts, i, at.depth, o, c);
            Emitted(Leaves(nodes), c, c', Spots(parts, i, at, live, o), o.maxParts - c.parts)
    decreases parts, |parts| - i
  {
    if i < |parts| && c.parts < o.maxParts {
      var c1 := Build(parts[i], at.depth, o, c).1;
      UnambiguousParts(SpotsOf(parts, i, at, live, o), Spots(parts, i + 1, at, live, o), o.maxParts - c.parts);
      BuildFollowsSpots(parts, i, at, live, o, c);
      SubsFollowSpots(parts, i + 1, at, live, o, c1);
      SiblingsFollow(parts, i, at.depth, o, c, SpotsOf(parts, i, at, live, o), Spots(parts, i + 1, at, live, o));
    }
  }

  /** One sibling and then the others. */
  lemma SiblingsFollow(parts: seq<Part>, i: nat, depth: nat, o: Options, c: Count, first: seq<Spot>, others: seq<Spot>)
    requires i < |parts| && c.parts < o.maxParts
    requires var (node, c1) := Build(parts[i], depth, o, c);
             && Emitted(LeavesOf(node), c, c1, first, o.maxParts - c.parts)
             && c1.parts <= o.maxParts
             && var (rest, c2) := BuildSubs(parts, i + 1, depth, o, c1);
                Emitted(Leaves(rest), c1, c2, others, o.maxParts - c1.parts)
    ensures var (nodes, c2) := BuildSubs(parts, i, depth, o, c);
            Emitted(Leaves(nodes), c, c2, first + others, o.maxParts - c.parts)
  {
    var (node, c1) := Build(parts[i], depth, o, c);
    var (rest, c2) := BuildSubs(parts, i + 1, depth, o, c1);
    LeavesCons(node, rest);
    EmittedBoth(LeavesOf(node), Leaves(rest), c, c1, c2, first, others, o.maxParts - c.parts);
  }

  lemma UnambiguousParts(p: seq<Spot>, q: seq<Spot>, budget: nat)
    requires !Ambiguous(Withins(p + q), budget)
    ensures !Ambiguous(Withins(p), budget) && !Ambiguous(Withins(q), Sub(budget, |Withins(p)|))
  {
    WithinsConcat(p, q);
    AmbiguousConcat(Withins(p), Withins(q), budget);
  }

  lemma LeavesCons(node: Node, rest: seq<Node>)
    ensures Leaves([node] + rest) == LeavesOf(node) + Leaves(rest)
  {
    var nodes := [node] + rest;
    assert nodes[0] == node && nodes[1..] == rest;
  }

  /** On every message the flat walk does not find ambiguous, and under any caps, the
      leaves of `bodyStructure` are the numbered parts among the spots. */
  lemma StructureFollowsSpots(root: Part, o: Options)
    requires o.maxParts >= 1 && !Walk(root, o).ambiguous
    ensures Emitted(LeavesOf(BodyStructure(root, o)), Count(0, 0), Build(root, 0, o, Count(0, 0)).1,
                    AllSpots(root, o), o.maxParts)
    ensures Withins(AllSpots(root, o)) == Entries(root, o)
  {
    ReuseClearsTheMessage(root, o);
    SpotsHoldListing([root], 0, ROOT, BOTH, o);
    var first := SpotsOf([root], 0, ROOT, BOTH, o);
    assert Spots([root], 1, ROOT, BOTH, o) == [] && first + [] == first;
    BuildFollowsSpots([root], 0, ROOT, BOTH, o, Count(0, 0));
  }

  // ------------------------------------------------------------------
  // Agreement
  // ------------------------------------------------------------------

  /** How many leaves below the depth cap come before leaf `j` (counting from 0) within it. */
  function Delay(spots: seq<Spot>, j: nat): nat {
    if spots == [] then 0
    else
      match spots[0]
      case TooDeep(_) => 1 + Delay(spots[1..], j)
      case Within(Container(_)) => Delay(spots[1..], j)
      case Within(Item(_, _, _, _, _)) => if j == 0 then 0 else Delay(spots[1..], j - 1)
  }

  /** The leaves within the depth cap up to where `budget` parts have been counted. */
  function Shown(spots: seq<Spot>, budget: nat): seq<Entry> {
    if spots == [] || budget == 0 then []
    else if spots[0].TooDeep? then Shown(spots[1..], budget)
    else if spots[0].entry.Item? then [spots[0].entry] + Shown(spots[1..], budget - 1)
    else Shown(spots[1..], budget - 1)
  }

  /** They are the leaves the flat walk numbers. */
  lemma {:induction false} ShownAreNumbered(spots: seq<Spot>, budget: nat)
    ensures Shown(spots, budget) == Numbered(Withins(spots), budget)
  {
    if spots != [] && budget > 0 {
      var entries := Withins(spots);
      if spots[0].TooDeep? {
        assert entries == Withins(spots[1..]);
        ShownAreNumbered(spots[1..], budget);
      } else {
        assert entries[0] == spots[0].entry && entries[1..] == Withins(spots[1..]);
        ShownAreNumbered(spots[1..], budget - 1);
      }
    }
  }

  /** A leaf one level below the depth cap is followed, before the part cap is met, by a
      leaf within the depth cap. */
  predicate StubComesFirst(spots: seq<Spot>, budget: nat) {
    && spots != [] && budget > 0
    && match spots[0]
       case TooDeep(_) => Shown(spots[1..], budget) != []
       case Within(_) => StubComesFirst(spots[1..], budget - 1)
  }

  ghost predicate Consecutive(leaves: seq<Node>, from: nat) {
    forall j :: 0 <= j < |leaves| ==>
      (leaves[j].LeafNode? || leaves[j].LeafStub?) && leaves[j].id == from + j + 1
  }

  lemma {:induction false} KeptIsConsecutive(spots: seq<Spot>, budget: nat, from: nat)
    ensures Consecutive(Kept(spots, budget, from), from)
  {
    if spots != [] && budget > 0 {
      match spots[0]
      case TooDeep(_) => KeptIsConsecutive(spots[1..], budget, from + 1);
      case Within(Container(_)) => KeptIsConsecutive(spots[1..], budget - 1, from);
      case Within(Item(_, _, _, _, _)) => KeptIsConsecutive(spots[1..], budget - 1, from + 1);
    }
  }

  /** `nodes` are the leaves of `table` in order, each under its number plus the number of
      stubs before it. */
  ghost predicate Delayed(nodes: seq<Node>, table: seq<Entry>, spots: seq<Spot>, from: nat) {
    && |nodes| == |table|
    && forall j :: 0 <= j < |table| ==>
         table[j].Item? && nodes[j] == LeafNode(from + j + 1 + Delay(spots, j), table[j].leaf)
  }

  lemma DelayedAfterLeaf(nodes: seq<Node>, table: seq<Entry>, spots: seq<Spot>, from: nat)
    requires spots != [] && spots[0].Within? && spots[0].entry.Item?
    requires Delayed(nodes, table, spots[1..], from + 1)
    ensures Delayed([LeafNode(from + 1, spots[0].entry.leaf)] + nodes, [spots[0].entry] + table, spots, from)
  {
    var all := [LeafNode(from + 1, spots[0].entry.leaf)] + nodes;
    forall j | 0 < j < |all| ensures all[j] == LeafNode(from + j + 1 + Delay(spots, j), table[j - 1].leaf) {
      assert all[j] == nodes[j - 1];
    }
  }

  lemma DelayedAfterOther(nodes: seq<Node>, table: seq<Entry>, spots: seq<Spot>, from: nat)
    requires spots != [] && (spots[0].TooDeep? || spots[0].entry.Container?)
    requires Delayed(nodes, table, spots[1..], if spots[0].TooDeep? then from + 1 else from)
    ensures Delayed(nodes, table, spots, from)
  {
  }

  lemma RealCons(node: Node, rest: seq<Node>)
    ensures Real([node] + rest) == if node.LeafNode? then [node] + Real(rest) else Real(rest)
  {
    assert ([node] + rest)[1..] == rest;
  }

  /** The nodes that are no stubs are the leaves shown, in order. */
  lemma {:induction false} KeptHoldsShown(spots: seq<Spot>, budget: nat, from: nat)
    ensures Delayed(Real(Kept(spots, budget, from)), Shown(spots, budget), spots, from)
  {
    if spots == [] || budget == 0 {
      return;
    }
    var rest := spots[1..];
    if spots[0].TooDeep? {
      var kept := Kept(rest, budget, from + 1);
      KeptHoldsShown(rest, budget, from + 1);
      RealCons(LeafStub(from + 1, spots[0].leaf.ctype), kept);
      DelayedAfterOther(Real(kept), Shown(rest, budget), spots, from);
    } else if spots[0].entry.Item? {
      var kept := Kept(rest, budget - 1, from + 1);
      KeptHoldsShown(rest, budget - 1, from + 1);
      RealCons(LeafNode(from + 1, spots[0].entry.leaf), kept);
      DelayedAfterLeaf(Real(kept), Shown(rest, budget - 1), spots, from);
    } else {
      KeptHoldsShown(rest, budget - 1, from);
      DelayedAfterOther(Real(Kept(rest, budget - 1, from)), Shown(rest, budget - 1), spots, from);
    }
  }

  /** The same, by position among all the leaf nodes. */
  ghost predicate SitsAt(kept: seq<Node>, k: nat, from: nat, table: seq<Entry>, j: nat) {
    && j < |table| && table[j].Item?
    && k < |kept| && kept[k] == LeafNode(from + k + 1, table[j].leaf)
  }

  lemma SitsAfterOne(node: Node, kept: seq<Node>, k: nat, from: nat, table: seq<Entry>, j: nat)
    requires SitsAt(kept, k, from + 1, table, j)
    ensures SitsAt([node] + kept, k + 1, from, table, j)
    ensures forall e :: SitsAt([node] + kept, k + 1, from, [e] + table, j + 1)
  {
  }

  lemma {:induction false} KeptAt(spots: seq<Spot>, budget: nat, from: nat, j: nat)
    requires j < |Shown(spots, budget)|
    ensures SitsAt(Kept(spots, budget, from), j + Delay(spots, j), from, Shown(spots, budget), j)
  {
    var rest := spots[1..];
    if spots[0].TooDeep? {
      KeptAt(rest, budget, from + 1, j);
      SitsAfterOne(LeafStub(from + 1, spots[0].leaf.ctype), Kept(rest, budget, from + 1), j + Delay(rest, j),
                   from, Shown(rest, budget), j);
    } else if spots[0].entry.Container? {
      KeptAt(rest, budget - 1, from, j);
    } else if j > 0 {
      KeptAt(rest, budget - 1, from + 1, j - 1);
      SitsAfterOne(LeafNode(from + 1, spots[0].entry.leaf), Kept(rest, budget - 1, from + 1),
                   j - 1 + Delay(rest, j - 1), from, Shown(rest, budget - 1), j - 1);
    }
  }

  /** While no stub comes first there is no delay. */
  lemma {:induction false} NoStubNoDelay(spots: seq<Spot>, budget: nat, j: nat)
    requires !StubComesFirst(spots, budget) && j < |Shown(spots, budget)|
    ensures Delay(spots, j) == 0
  {
    if spots[0].entry.Container? {
      NoStubNoDelay(spots[1..], budget - 1, j);
    } else if j > 0 {
      NoStubNoDelay(spots[1..], budget - 1, j - 1);
    }
  }

  /** Otherwise a stub sits where the leaf it precedes should be. */
  lemma {:induction false} StubInTheWay(spots: seq<Spot>, budget: nat, from: nat) returns (j: nat)
    requires StubComesFirst(spots, budget)
    ensures j < |Shown(spots, budget)| && j < |Kept(spots, budget, from)|
    ensures Kept(spots, budget, from)[j].LeafStub?
  {
    if spots[0].TooDeep? {
      j := 0;
    } else if spots[0].entry.Container? {
      j := StubInTheWay(spots[1..], budget - 1, from);
    } else {
      var k := StubInTheWay(spots[1..], budget - 1, from + 1);
      j := k + 1;
    }
  }

  /** For every message the flat walk does not find ambiguous, and any caps: both walks
      visit the same number of parts; the ids of `bodyStructure` are 1, 2, ... in document
      order; its leaves without the stubs are, in order, the leaves the flat walk numbers;
      and the id of each is its number there plus the number of stubs before it. */
  lemma WalksAgree(root: Part, o: Options)
    requires o.maxParts >= 1 && !Walk(root, o).ambiguous
    ensures var (node, c) := Build(root, 0, o, Count(0, 0));
            var s, table, nodes := Walk(root, o), Table(root, o), Real(LeavesOf(node));
            && c.parts == s.parts
            && c.nextId == |LeavesOf(node)| && Consecutive(LeavesOf(node), 0)
            && s.nextId == |table| && Delayed(nodes, table, AllSpots(root, o), 0)
  {
    WalkPlacesEveryLeaf(root, o);
    StructureFollowsSpots(root, o);
    KeptIsConsecutive(AllSpots(root, o), o.maxParts, 0);
    KeptHoldsShown(AllSpots(root, o), o.maxParts, 0);
    ShownAreNumbered(AllSpots(root, o), o.maxParts);
  }

  /** What `bodyStructure` promises: under the id the flat walk gives a leaf, it has that
      leaf. */
  ghost predicate IdsAgree(root: Part, o: Options) {
    var leaves, table := LeavesOf(BodyStructure(root, o)), Table(root, o);
    forall j :: 0 <= j < |table| ==> SitsAt(leaves, j, 0, table, j)
  }

  /** It keeps the promise if and only if no leaf one level below the depth cap comes
      before a leaf the flat walk numbers. */
  lemma IdsAgreeUnlessAStubComesFirst(root: Part, o: Options)
    requires o.maxParts >= 1 && !Walk(root, o).ambiguous
    ensures IdsAgree(root, o) <==> !StubComesFirst(AllSpots(root, o), o.maxParts)
  {
    var spots, leaves := AllSpots(root, o), LeavesOf(BodyStructure(root, o));
    StructureFollowsSpots(root, o);
    ShownAreNumbered(spots, o.maxParts);
    if StubComesFirst(spots, o.maxParts) {
      var j := StubInTheWay(spots, o.maxParts, 0);
      assert !SitsAt(leaves, j, 0, Table(root, o), j);
    } else {
      forall j | 0 <= j < |Table(root, o)| ensures SitsAt(leaves, j, 0, Table(root, o), j) {
        KeptAt(spots, o.maxParts, 0, j);
        NoStubNoDelay(spots, o.maxParts, j);
      }
    }
  }

  /** Every leaf and container is within the depth cap. */
  predicate Shallow(parts: seq<Part>, i: nat, depth: nat, o: Options)
    requires i <= |parts|
    decreases parts, |parts| - i
  {
    i < |parts| ==>
      && depth <= o.maxDepth
      && (parts[i].Multi? ==> Shallow(parts[i].children, 0, depth + 1, o))
      && Shallow(parts, i + 1, depth, o)
  }

  lemma {:induction false} ShallowHasNoStubs(parts: seq<Part>, i: nat, at: Place, live: Live, o: Options)
    requires i <= |parts| && Shallow(parts, i, at.depth, o)
    ensures forall spot :: spot in Spots(parts, i, at, live, o) ==> spot.Within?
    decreases parts, |parts| - i
  {
    if i < |parts| {
      if parts[i].Multi? {
        ShallowHasNoStubs(parts[i].children, 0, Below(parts[i], at), OpenAt(parts, i, at, live), o);
      }
      ShallowHasNoStubs(parts, i + 1, at, live, o);
    }
  }

  lemma {:induction false} WithoutStubsNoneComesFirst(spots: seq<Spot>, budget: nat)
    requires forall spot :: spot in spots ==> spot.Within?
    ensures !StubComesFirst(spots, budget)
  {
    if spots != [] && budget > 0 {
      assert spots[0] in spots;
      WithoutStubsNoneComesFirst(spots[1..], budget - 1);
    }
  }

  /** In particular it keeps the promise on every message within the depth cap. */
  lemma IdsAgreeWithinTheDepthCap(root: Part, o: Options)
    requires o.maxParts >= 1 && !Walk(root, o).ambiguous && Shallow([root], 0, 0, o)
    ensures IdsAgree(root, o)
  {
    ShallowHasNoStubs([root], 0, ROOT, BOTH, o);
    WithoutStubsNoneComesFirst(AllSpots(root, o), o.maxParts);
    IdsAgreeUnlessAStubComesFirst(root, o);
  }

  /** Past the depth cap the ids do drift apart: with a cap of 1, the leaf inside the
      inner container takes id 1 in `bodyStructure`, while the flat walk gives id 1 to
      the leaf after that container. */
  lemma DeepLeafShiftsTheIds()
    ensures var first := Leaf("text/plain", "", "", "first", false);
            var second := Leaf("text/plain", "", "", "second", false);
            var root := Multi("mixed", "", [Multi("mixed", "", [Single(first)]), Single(second)]);
            var o := Options(1, 1000);
            && Walk(root, o).text == [BodyPart(1, second)]
            && LeavesOf(BodyStructure(root, o)) == [LeafStub(1, "text/plain"), LeafNode(2, second)]
  {
    var first := Leaf("text/plain", "", "", "first", false);
    var second := Leaf("text/plain", "", "", "second", false);
    var inner := Multi("mixed", "", [Single(first)]);
    var root := Multi("mixed", "", [inner, Single(second)]);
    var o := Options(1, 1000);

    var at := Below(root, ROOT);
    assert IsInline(second, 1, at.kind);
    var s1 := EMPTY.(parts := 1);
    var s2 := s1.(parts := 2);
    assert Parse([Single(first)], Below(inner, at), BOTH, o, s2) == s2;
    assert Visit(root.children, 0, at, BOTH, o, s1) == (s2, BOTH);
    var (s3, l3) := Visit(root.children, 1, at, BOTH, o, s2);
    assert Loop(root.children, 2, at, l3, o, s3) == Outcome(s3, l3, false);
    assert Loop(root.children, 1, at, BOTH, o, s2) == Outcome(s3, l3, false);
    assert Parse(root.children, at, BOTH, o, s1) == s3;
    assert Loop([root], 1, ROOT, BOTH, o, s3) == Outcome(s3, BOTH, false);
    assert Visit([root], 0, ROOT, BOTH, o, EMPTY) == (s3, BOTH);
    assert Loop([root], 0, ROOT, BOTH, o, EMPTY) == Outcome(s3, BOTH, false);
    assert Walk(root, o) == s3;

    var c1 := Count(1, 0);
    var stub := LeafStub(1, "text/plain");
    assert BuildSubs([Single(first)], 1, 2, o, Count(2, 1)) == ([], Count(2, 1));
    assert [stub] + [] == [stub];
    assert BuildSubs([Single(first)], 0, 2, o, Count(2, 0)) == ([stub], Count(2, 1));
    assert Build(inner, 1, o, c1) == (MultiNode("mixed", [stub]), Count(2, 1));
    assert BuildSubs(root.children, 2, 1, o, Count(3, 2)) == ([], Count(3, 2));
    assert [LeafNode(2, second)] + [] == [LeafNode(2, second)];
    assert BuildSubs(root.children, 1, 1, o, Count(2, 1)) == ([LeafNode(2, second)], Count(3, 2));
    var subs := [MultiNode("mixed", [stub]), LeafNode(2, second)];
    assert BuildSubs(root.children, 0, 1, o, c1).0 == subs;
    assert Leaves([stub]) == [stub] by {
      assert [stub][1..] == [];
    }
    assert subs[1..] == [LeafNode(2, second)];
    assert subs[1..][1..] == [];
    assert Leaves(subs[1..]) == [LeafNode(2, second)];
    assert Leaves(subs) == [stub, LeafNode(2, second)];
  }

  // ------------------------------------------------------------------
  // The shape of the built tree
  // ------------------------------------------------------------------

  /** `node` describes `part`: same type and content, and its children describe an
      initial segment of the part's children one for one. */
  ghost predicate Mirrors(node: Node, part: Part)
    decreases part
  {
    match node
    case LeafNode(_, leaf) => part == Single(leaf)
    case LeafStub(_, ctype) => part.Single? && part.leaf.ctype == ctype
    case MultiStub(subtype) => part.Multi? && part.subtype == subtype
    case MultiNode(subtype, subs) =>
      && part.Multi? && part.subtype == subtype
      && |subs| <= |part.children|
      && forall j :: 0 <= j < |subs| ==> Mirrors(subs[j], part.children[j])
  }

  lemma {:induction false} BuildMirrors(part: Part, depth: nat, o: Options, c: Count)
    ensures Mirrors(Build(part, depth, o, c).0, part)
    decreases part, 0
  {
    if part.Multi? && depth <= o.maxDepth && c.parts < o.maxParts {
      SubsMirror(part.children, 0, depth + 1, o, c.(parts := c.parts + 1));
    }
  }

  lemma {:induction false} SubsMirror(parts: seq<Part>, i: nat, depth: nat, o: Options, c: Count)
    requires i <= |parts|
    ensures var nodes := BuildSubs(parts, i, depth, o, c).0;
            && |nodes| <= |parts| - i
            && forall j :: 0 <= j < |nodes| ==> Mirrors(nodes[j], parts[i + j])
    decreases parts, |parts| - i
  {
    if i < |parts| && c.parts < o.maxParts {
      BuildMirrors(parts[i], depth, o, c);
      SubsMirror(parts, i + 1, depth, o, Build(parts[i], depth, o, c).1);
    }
  }
}
