/** The whole of `bodyStructure`: which parts it shows, on every message and under any caps. */
module MimeShape {
  import opened MimeTree
  import opened MimeStructure

  // ------------------------------------------------------------------
  // A picture of the tree, whole or cut
  // ------------------------------------------------------------------

  /** The node shows the part with everything beneath it: parts within the depth cap in full,
      those one level below it as stubs. */
  ghost predicate Complete(node: Node, part: Part, depth: nat, o: Options)
    decreases part
  {
    match node
    case LeafNode(_, leaf) => part == Single(leaf) && depth <= o.maxDepth
    case LeafStub(_, ctype) => part.Single? && part.leaf.ctype == ctype && depth > o.maxDepth
    case MultiStub(subtype) => part.Multi? && part.subtype == subtype && depth > o.maxDepth
    case MultiNode(subtype, subs) =>
      && part.Multi? && part.subtype == subtype && depth <= o.maxDepth
      && |subs| == |part.children|
      && forall j :: 0 <= j < |subs| ==> Complete(subs[j], part.children[j], depth + 1, o)
  }

  /** The node shows the part up to some point of document order: at every level the children
      up to some one, all of them complete but the last, which may be cut itself. */
  ghost predicate CutShort(node: Node, part: Part, depth: nat, o: Options)
    decreases part
  {
    || Complete(node, part, depth, o)
    || (&& node.MultiNode? && part.Multi? && part.subtype == node.subtype && depth <= o.maxDepth
        && |node.subParts| <= |part.children|
        && (forall j :: 0 <= j < |node.subParts| - 1 ==> Complete(node.subParts[j], part.children[j], depth + 1, o))
        && (node.subParts != [] ==>
              var last := |node.subParts| - 1;
              CutShort(node.subParts[last], part.children[last], depth + 1, o)))
  }

  /** How many nodes are no stubs. */
  function Counted(node: Node): nat
    decreases node
  {
    match node
    case LeafNode(_, _) => 1
    case MultiNode(_, subs) => 1 + CountedAll(subs)
    case _ => 0
  }

  function CountedAll(nodes: seq<Node>): nat
    decreases nodes
  {
    if nodes == [] then 0 else Counted(nodes[0]) + CountedAll(nodes[1..])
  }

  /** How many parts there are within the depth cap. */
  function Total(part: Part, depth: nat, o: Options): nat
    decreases part
  {
    if depth > o.maxDepth then 0
    else if part.Single? then 1
    else 1 + TotalAll(part.children, depth + 1, o)
  }

  function TotalAll(parts: seq<Part>, depth: nat, o: Options): nat
    decreases parts
  {
    if parts == [] then 0 else Total(parts[0], depth, o) + TotalAll(parts[1..], depth, o)
  }

  // ------------------------------------------------------------------
  // The builder draws it
  // ------------------------------------------------------------------

  /** The nodes show the parts from sibling `i` on: all of them, or up to some one. */
  ghost predicate CompleteAll(nodes: seq<Node>, parts: seq<Part>, i: nat, depth: nat, o: Options)
    requires i <= |parts|
  {
    |nodes| == |parts| - i && forall j :: 0 <= j < |nodes| ==> Complete(nodes[j], parts[i + j], depth, o)
  }

  ghost predicate CutShortAll(nodes: seq<Node>, parts: seq<Part>, i: nat, depth: nat, o: Options)
    requires i <= |parts|
  {
    && |nodes| <= |parts| - i
    && (forall j :: 0 <= j < |nodes| - 1 ==> Complete(nodes[j], parts[i + j], depth, o))
    && (nodes != [] ==> CutShort(nodes[|nodes| - 1], parts[i + |nodes| - 1], depth, o))
  }

  /** What the builder leaves for one part, or for siblings: a cut picture that is complete
      while the part cap is not met, the cap counting the nodes that are no stubs. */
  ghost predicate Drawn(counted: nat, cut: bool, complete: bool, c: Count, c': Count, o: Options) {
    && c'.parts == c.parts + counted && c'.parts <= o.maxParts
    && cut && (c'.parts < o.maxParts ==> complete)
  }

  lemma {:induction false} BuildDraws(part: Part, depth: nat, o: Options, c: Count)
    requires c.parts < o.maxParts
    ensures var (node, c') := Build(part, depth, o, c);
            Drawn(Counted(node), CutShort(node, part, depth, o), Complete(node, part, depth, o), c, c', o)
    decreases part, 0
  {
    if part.Multi? && depth <= o.maxDepth {
      var c1 := c.(parts := c.parts + 1);
      SubsDraw(part.children, 0, depth + 1, o, c1);
      ContainerDraws(part, depth, o, c);
    }
  }

  lemma ContainerDraws(part: Part, depth: nat, o: Options, c: Count)
    requires c.parts < o.maxParts && part.Multi? && depth <= o.maxDepth
    requires var c1 := c.(parts := c.parts + 1);
             var (nodes, c2) := BuildSubs(part.children, 0, depth + 1, o, c1);
             Drawn(CountedAll(nodes), CutShortAll(nodes, part.children, 0, depth + 1, o),
                   CompleteAll(nodes, part.children, 0, depth + 1, o), c1, c2, o)
    ensures var (node, c') := Build(part, depth, o, c);
            Drawn(Counted(node), CutShort(node, part, depth, o), Complete(node, part, depth, o), c, c', o)
  {
  }

  lemma {:induction false} SubsDraw(parts: seq<Part>, i: nat, depth: nat, o: Options, c: Count)
    requires i <= |parts| && c.parts <= o.maxParts
    ensures var (nodes, c') := BuildSubs(parts, i, depth, o, c);
            Drawn(CountedAll(nodes), CutShortAll(nodes, parts, i, depth, o), CompleteAll(nodes, parts, i, depth, o),
                  c, c', o)
    decreases parts, |parts| - i
  {
    if i < |parts| && c.parts < o.maxParts {
      var (node, c1) := Build(parts[i], depth, o, c);
      var (rest, c2) := BuildSubs(parts, i + 1, depth, o, c1);
      BuildDraws(parts[i], depth, o, c);
      SubsDraw(parts, i + 1, depth, o, c1);
      if c1.parts == o.maxParts {
        assert rest == [];
      }
      OneMoreDrawn(node, rest, parts, i, depth, o);
      assert CountedAll([node] + rest) == Counted(node) + CountedAll(rest) by {
        assert ([node] + rest)[1..] == rest;
      }
    }
  }

  /** One sibling in front of the others. */
  lemma OneMoreDrawn(node: Node, rest: seq<Node>, parts: seq<Part>, i: nat, depth: nat, o: Options)
    requires i < |parts|
    requires CutShort(node, parts[i], depth, o) && CutShortAll(rest, parts, i + 1, depth, o)
    requires rest != [] ==> Complete(node, parts[i], depth, o)
    ensures CutShortAll([node] + rest, parts, i, depth, o)
    ensures Complete(node, parts[i], depth, o) && CompleteAll(rest, parts, i + 1, depth, o)
        ==> CompleteAll([node] + rest, parts, i, depth, o)
  {
    var nodes := [node] + rest;
    forall j | 0 < j < |nodes| - 1 ensures Complete(nodes[j], parts[i + j], depth, o) {
      assert nodes[j] == rest[j - 1] && parts[i + j] == parts[i + 1 + (j - 1)];
    }
    if rest != [] {
      assert nodes[|nodes| - 1] == rest[|rest| - 1];
    }
    if CompleteAll(rest, parts, i + 1, depth, o) {
      forall j | 0 < j < |nodes| ensures Complete(nodes[j], parts[i + j], depth, o) {
        assert nodes[j] == rest[j - 1] && parts[i + j] == parts[i + 1 + (j - 1)];
      }
    }
  }

  lemma {:induction false} CompleteCountsTotal(node: Node, part: Part, depth: nat, o: Options)
    requires Complete(node, part, depth, o)
    ensures Counted(node) == Total(part, depth, o)
    decreases part, 1
  {
    if node.MultiNode? {
      CompleteCountsAll(node.subParts, part.children, depth + 1, o);
    }
  }

  lemma {:induction false} CompleteCountsAll(nodes: seq<Node>, parts: seq<Part>, depth: nat, o: Options)
    requires |nodes| == |parts| && forall j :: 0 <= j < |nodes| ==> Complete(nodes[j], parts[j], depth, o)
    ensures CountedAll(nodes) == TotalAll(parts, depth, o)
    decreases parts, 0
  {
    if nodes != [] {
      CompleteCountsTotal(nodes[0], parts[0], depth, o);
      CompleteCountsAll(nodes[1..], parts[1..], depth, o);
    }
  }

  // ------------------------------------------------------------------
  // Numbering
  // ------------------------------------------------------------------

  lemma {:induction false} BuildNumbers(part: Part, depth: nat, o: Options, c: Count)
    ensures var (node, c') := Build(part, depth, o, c);
            Consecutive(LeavesOf(node), c.nextId) && c'.nextId == c.nextId + |LeavesOf(node)|
    decreases part, 0
  {
    if part.Multi? && depth <= o.maxDepth && c.parts < o.maxParts {
      SubsNumber(part.children, 0, depth + 1, o, c.(parts := c.parts + 1));
    }
  }

  lemma {:induction false} SubsNumber(parts: seq<Part>, i: nat, depth: nat, o: Options, c: Count)
    requires i <= |parts|
    ensures var (nodes, c') := BuildSubs(parts, i, depth, o, c);
            Consecutive(Leaves(nodes), c.nextId) && c'.nextId == c.nextId + |Leaves(nodes)|
    decreases parts, |parts| - i
  {
    if i < |parts| && c.parts < o.maxParts {
      var (node, c1) := Build(parts[i], depth, o, c);
      var (rest, c2) := BuildSubs(parts, i + 1, depth, o, c1);
      BuildNumbers(parts[i], depth, o, c);
      SubsNumber(parts, i + 1, depth, o, c1);
      LeavesCons(node, rest);
    }
  }

  /** For every message, ambiguous or not, and any caps: `bodyStructure` is the MIME tree cut at
      one point of document order, with the containers' types, the leaves, and stubs one level
      below the depth cap; it is whole unless there are more parts within the depth cap than
      the part cap allows, and then shows as many as that; and the ids are 1, 2, ... */
  lemma StructureIsTheTreeUpToTheCaps(root: Part, o: Options)
    requires o.maxParts >= 1
    ensures var node, total := BodyStructure(root, o), Total(root, 0, o);
            && CutShort(node, root, 0, o)
            && (total < o.maxParts ==> Complete(node, root, 0, o))
            && Counted(node) == (if total < o.maxParts then total else o.maxParts)
            && forall j :: 0 <= j < |LeavesOf(node)| ==>
                 var leaf := LeavesOf(node)[j]; (leaf.LeafNode? || leaf.LeafStub?) && leaf.id == j + 1
  {
    BuildDraws(root, 0, o, Count(0, 0));
    BuildNumbers(root, 0, o, Count(0, 0));
    var node := BodyStructure(root, o);
    if Complete(node, root, 0, o) {
      CompleteCountsTotal(node, root, 0, o);
    }
    CutCountsLess(node, root, 0, o);
  }

  /** A cut picture counts no more parts than there are. */
  lemma {:induction false} CutCountsLess(node: Node, part: Part, depth: nat, o: Options)
    requires CutShort(node, part, depth, o)
    ensures Counted(node) <= Total(part, depth, o)
    decreases part, 1
  {
    if Complete(node, part, depth, o) {
      CompleteCountsTotal(node, part, depth, o);
    } else {
      CutCountsLessAll(node.subParts, part.children, depth + 1, o);
    }
  }

  lemma {:induction false} CutCountsLessAll(nodes: seq<Node>, parts: seq<Part>, depth: nat, o: Options)
    requires |nodes| <= |parts|
    requires forall j :: 0 <= j < |nodes| - 1 ==> Complete(nodes[j], parts[j], depth, o)
    requires nodes != [] ==> CutShort(nodes[|nodes| - 1], parts[|nodes| - 1], depth, o)
    ensures CountedAll(nodes) <= TotalAll(parts, depth, o)
    decreases parts, 0
  {
    if nodes != [] {
      CutCountsLess(nodes[0], parts[0], depth, o);
      CutCountsLessAll(nodes[1..], parts[1..], depth, o);
    }
  }
}
