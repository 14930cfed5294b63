/** The reference enumeration in terms of paths: which parts a message has, in which order,
    and what encloses and precedes each of them. */
module MimePaths {
  import opened Wrappers
  import opened MimeTree

  // ------------------------------------------------------------------
  // Paths
  // ------------------------------------------------------------------

  /** The part reached by going to child number `path[0]`, then to its child `path[1]`, ... */
  function PartAt(parts: seq<Part>, path: seq<nat>): Option<Part> {
    if path == [] || path[0] >= |parts| then None
    else if |path| == 1 then Some(parts[path[0]])
    else if parts[path[0]].Single? then None
    else PartAt(parts[path[0]].children, path[1..])
  }

  /** The containers above the end of the path, outermost first, after those of `above`. */
  function Chain(parts: seq<Part>, path: seq<nat>, above: seq<Part>): seq<Part> {
    if |path| <= 1 || path[0] >= |parts| || parts[path[0]].Single? then above
    else Chain(parts[path[0]].children, path[1..], above + [parts[path[0]]])
  }

  /** The type of the innermost container; a message stands in a mixed one. */
  function KindIn(chain: seq<Part>): string {
    if chain == [] || !chain[|chain| - 1].Multi? || chain[|chain| - 1].subtype == "" then "mixed"
    else chain[|chain| - 1].subtype
  }

  function AlternativesIn(chain: seq<Part>): nat {
    if chain == [] then 0
    else
      AlternativesIn(chain[..|chain| - 1])
      + if chain[|chain| - 1].Multi? && chain[|chain| - 1].subtype == "alternative" then 1 else 0
  }

  /** The container declares a boundary that one of those above it declares, too. */
  predicate Redeclares(p: Part, chain: seq<Part>) {
    && p.Multi? && p.boundary != ""
    && exists j :: 0 <= j < |chain| && chain[j].Multi? && chain[j].boundary == p.boundary
  }

  /** The part lies within the depth cap, and not beneath a container that re-declares a
      boundary. */
  predicate Reached(parts: seq<Part>, path: seq<nat>, above: seq<Part>, o: Options) {
    && path != [] && path[0] < |parts| && |above| <= o.maxDepth
    && (|| |path| == 1
        || (&& parts[path[0]].Multi? && !Redeclares(parts[path[0]], above)
            && Reached(parts[path[0]].children, path[1..], above + [parts[path[0]]], o)))
  }

  /** One of the siblings before number `index` is body text of type `ctype`: a leaf that is
      no attachment and is the first one, or neither in a related container nor named; and
      the container is beneath an alternative without being one. */
  predicate ShutHere(parts: seq<Part>, index: nat, chain: seq<Part>, ctype: string) {
    && AlternativesIn(chain) > 0 && KindIn(chain) != "alternative"
    && exists j :: 0 <= j < index && j < |parts| && parts[j].Single?
         && parts[j].leaf.ctype == ctype && parts[j].leaf.disposition != "attachment"
         && (j == 0 || (KindIn(chain) != "related" && parts[j].leaf.name == ""))
  }

  /** That is so next to the end of the path or next to a container on it. */
  predicate ShutAlong(parts: seq<Part>, path: seq<nat>, above: seq<Part>, ctype: string) {
    && path != [] && path[0] < |parts|
    && (|| ShutHere(parts, path[0], above, ctype)
        || (|path| > 1 && parts[path[0]].Multi?
            && ShutAlong(parts[path[0]].children, path[1..], above + [parts[path[0]]], ctype)))
  }

  /** Document order: a container before what is in it, earlier siblings first. */
  predicate Precedes(a: seq<nat>, b: seq<nat>) {
    if a == [] || b == [] then a == [] && b != []
    else a[0] < b[0] || (a[0] == b[0] && Precedes(a[1..], b[1..]))
  }

  function Prefixed(i: nat, paths: seq<seq<nat>>): (r: seq<seq<nat>>)
    ensures |r| == |paths| && forall j :: 0 <= j < |r| ==> r[j] == [i] + paths[j]
  {
    if paths == [] then [] else [[i] + paths[0]] + Prefixed(i, paths[1..])
  }

  /** The paths of the parts from sibling `i` on. */
  function Paths(parts: seq<Part>, i: nat, above: seq<Part>, o: Options): seq<seq<nat>>
    requires i <= |parts|
    decreases parts, |parts| - i
  {
    if |above| > o.maxDepth || i == |parts| then [] else PathsOf(parts, i, above, o) + Paths(parts, i + 1, above, o)
  }

  function PathsOf(parts: seq<Part>, i: nat, above: seq<Part>, o: Options): seq<seq<nat>>
    requires i < |parts|
    decreases parts, |parts| - i, 0
  {
    if parts[i].Single? || Redeclares(parts[i], above) then [[i]]
    else [[i]] + Prefixed(i, Paths(parts[i].children, 0, above + [parts[i]], o))
  }

  // ------------------------------------------------------------------
  // They are all the parts, in document order
  // ------------------------------------------------------------------

  lemma {:induction false} PathsAreReached(parts: seq<Part>, i: nat, above: seq<Part>, o: Options, path: seq<nat>)
    requires i <= |parts|
    ensures path in Paths(parts, i, above, o) <==> Reached(parts, path, above, o) && path[0] >= i
    decreases parts, |parts| - i, 1
  {
    if |above| <= o.maxDepth && i < |parts| {
      PathsAreReached(parts, i + 1, above, o, path);
      PathsOfAreReached(parts, i, above, o, path);
    }
  }

  lemma {:induction false} PathsOfAreReached(parts: seq<Part>, i: nat, above: seq<Part>, o: Options, path: seq<nat>)
    requires i < |parts| && |above| <= o.maxDepth
    ensures path in PathsOf(parts, i, above, o) <==> Reached(parts, path, above, o) && path[0] == i
    decreases parts, |parts| - i, 0
  {
    if path == [i] {
      assert [[i]][0] == [i];
    } else if parts[i].Multi? && !Redeclares(parts[i], above) {
      var below := Paths(parts[i].children, 0, above + [parts[i]], o);
      PrefixedHolds(i, below, path);
      assert path in PathsOf(parts, i, above, o) <==> path in Prefixed(i, below);
      if |path| > 1 {
        PathsAreReached(parts[i].children, 0, above + [parts[i]], o, path[1..]);
      } else {
        PathsAreReached(parts[i].children, 0, above + [parts[i]], o, []);
      }
    }
  }

  lemma PrefixedHolds(i: nat, paths: seq<seq<nat>>, path: seq<nat>)
    ensures path in Prefixed(i, paths) <==> path != [] && path[0] == i && path[1..] in paths
  {
    if path != [] && path[0] == i && path[1..] in paths {
      var j :| 0 <= j < |paths| && paths[j] == path[1..];
      assert Prefixed(i, paths)[j] == path;
    }
    if path in Prefixed(i, paths) {
      var j :| 0 <= j < |paths| && Prefixed(i, paths)[j] == path;
      assert path[1..] == paths[j];
    }
  }

  ghost predicate InOrder(paths: seq<seq<nat>>) {
    forall j, k :: 0 <= j < k < |paths| ==> Precedes(paths[j], paths[k])
  }

  /** Every path starts with a number from `lo` on and below `hi`. */
  ghost predicate StartsWithin(paths: seq<seq<nat>>, lo: nat, hi: nat) {
    forall j :: 0 <= j < |paths| ==> paths[j] != [] && lo <= paths[j][0] < hi
  }

  lemma OrderBoth(a: seq<seq<nat>>, b: seq<seq<nat>>, lo: nat, mid: nat, hi: nat)
    requires InOrder(a) && InOrder(b) && StartsWithin(a, lo, mid) && StartsWithin(b, mid, hi) && lo <= mid <= hi
    ensures InOrder(a + b) && StartsWithin(a + b, lo, hi)
  {
    var all := a + b;
    forall j, k | 0 <= j < k < |all| ensures Precedes(all[j], all[k]) {
      if j < |a| <= k {
        assert all[j] == a[j] && all[k] == b[k - |a|];
      } else if k < |a| {
        assert Precedes(a[j], a[k]);
      } else {
        assert Precedes(b[j - |a|], b[k - |a|]);
      }
    }
  }

  lemma {:induction false} PathsInOrder(parts: seq<Part>, i: nat, above: seq<Part>, o: Options)
    requires i <= |parts|
    ensures InOrder(Paths(parts, i, above, o)) && StartsWithin(Paths(parts, i, above, o), i, |parts|)
    decreases parts, |parts| - i, 1
  {
    if |above| <= o.maxDepth && i < |parts| {
      PathsOfInOrder(parts, i, above, o);
      PathsInOrder(parts, i + 1, above, o);
      OrderBoth(PathsOf(parts, i, above, o), Paths(parts, i + 1, above, o), i, i + 1, |parts|);
    }
  }

  lemma {:induction false} PathsOfInOrder(parts: seq<Part>, i: nat, above: seq<Part>, o: Options)
    requires i < |parts|
    ensures InOrder(PathsOf(parts, i, above, o)) && StartsWithin(PathsOf(parts, i, above, o), i, i + 1)
    decreases parts, |parts| - i, 0
  {
    if parts[i].Multi? && !Redeclares(parts[i], above) {
      var below := Paths(parts[i].children, 0, above + [parts[i]], o);
      PathsInOrder(parts[i].children, 0, above + [parts[i]], o);
      PrefixedInOrder(i, below);
    }
  }

  lemma PrefixedInOrder(i: nat, below: seq<seq<nat>>)
    requires InOrder(below) && forall j :: 0 <= j < |below| ==> below[j] != []
    ensures InOrder([[i]] + Prefixed(i, below)) && StartsWithin([[i]] + Prefixed(i, below), i, i + 1)
  {
    var all := [[i]] + Prefixed(i, below);
    forall j, k | 0 <= j < k < |all| ensures Precedes(all[j], all[k]) {
      assert all[k] == [i] + below[k - 1] && all[k][1..] == below[k - 1];
      if j == 0 {
        assert all[j][1..] == [];
      } else {
        assert all[j] == [i] + below[j - 1] && all[j][1..] == below[j - 1];
        assert Precedes(below[j - 1], below[k - 1]);
      }
    }
  }

  // ------------------------------------------------------------------
  // The listing describes them
  // ------------------------------------------------------------------

  /** The entry is what stands at the path. */
  ghost predicate Describes(e: Entry, parts: seq<Part>, path: seq<nat>, above: seq<Part>, live: Live) {
    var chain := Chain(parts, path, above);
    match e
    case Container(reused) =>
      var p := PartAt(parts, path);
      p.Some? && p.value.Multi? && (reused <==> Redeclares(p.value, chain))
    case Item(leaf, index, kind, alts, live') =>
      && PartAt(parts, path) == Some(Single(leaf))
      && path != [] && index == path[|path| - 1]
      && kind == KindIn(chain) && alts == AlternativesIn(chain)
      && (live'.text <==> live.text && !ShutAlong(parts, path, above, "text/html"))
      && (live'.html <==> live.html && !ShutAlong(parts, path, above, "text/plain"))
  }

  ghost predicate DescribesAll(
    entries: seq<Entry>, parts: seq<Part>, paths: seq<seq<nat>>, above: seq<Part>, live: Live)
  {
    && |entries| == |paths|
    && forall k :: 0 <= k < |entries| ==> Describes(entries[k], parts, paths[k], above, live)
  }

  /** The place is that of a list whose containers are `above`. */
  ghost predicate IsPlace(at: Place, above: seq<Part>) {
    && at.kind == KindIn(above) && at.alts == AlternativesIn(above) && at.depth == |above|
    && (forall b :: b != "" ==>
          (b in at.parents <==> exists j :: 0 <= j < |above| && above[j].Multi? && above[j].boundary == b))
  }

  lemma RootPlace()
    ensures IsPlace(ROOT, [])
  {
  }

  lemma BelowIsPlace(p: Part, at: Place, above: seq<Part>)
    requires p.Multi? && IsPlace(at, above)
    ensures IsPlace(Below(p, at), above + [p])
    ensures Reuses(p, at) <==> Redeclares(p, above)
  {
    var chain := above + [p];
    assert chain[..|chain| - 1] == above;
    assert |"mixed"| != |"alternative"|;
    forall b | b != ""
      ensures b in Below(p, at).parents <==>
              exists j :: 0 <= j < |chain| && chain[j].Multi? && chain[j].boundary == b
    {
      if j :| 0 <= j < |above| && above[j].Multi? && above[j].boundary == b {
        assert chain[j] == above[j];
      }
      if p.boundary == b {
        assert chain[|above|] == p;
      }
    }
  }

  /** What an earlier sibling shuts, in both readings. */
  lemma ShutBeforeIsHere(parts: seq<Part>, i: nat, at: Place, above: seq<Part>, ctype: string)
    requires i <= |parts| && IsPlace(at, above) && (ctype == "text/plain" || ctype == "text/html")
    ensures ShutBefore(parts, i, at, ctype) <==> ShutHere(parts, i, above, ctype)
  {
    assert "text/plain"[0] != "image/"[0] && "text/plain"[0] != "audio/"[0] && "text/plain"[0] != "video/"[0];
    assert "text/html"[0] != "image/"[0] && "text/html"[0] != "audio/"[0] && "text/html"[0] != "video/"[0];
    assert |"alternative"| != |"related"|;
    if ShutBefore(parts, i, at, ctype) {
      var j :| 0 <= j < i && Shuts(parts, j, at, ctype);
      assert parts[j].Single? && parts[j].leaf.ctype == ctype;
    }
    if ShutHere(parts, i, above, ctype) {
      var j :| 0 <= j < i && j < |parts| && parts[j].Single?
               && parts[j].leaf.ctype == ctype && parts[j].leaf.disposition != "attachment"
               && (j == 0 || (KindIn(above) != "related" && parts[j].leaf.name == ""));
      assert Shuts(parts, j, at, ctype);
    }
  }

  lemma DescribesBelow(parts: seq<Part>, i: nat, at: Place, above: seq<Part>, live: Live, e: Entry, path: seq<nat>)
    requires i < |parts| && parts[i].Multi? && IsPlace(at, above) && path != []
    requires Describes(e, parts[i].children, path, above + [parts[i]], OpenAt(parts, i, at, live))
    ensures Describes(e, parts, [i] + path, above, live)
  {
    var p := [i] + path;
    assert p[1..] == path && |p| > 1 && p[|p| - 1] == path[|path| - 1];
    ShutBeforeIsHere(parts, i, at, above, "text/plain");
    ShutBeforeIsHere(parts, i, at, above, "text/html");
  }

  lemma {:induction false} ListingDescribes(
    parts: seq<Part>, i: nat, at: Place, above: seq<Part>, live: Live, o: Options)
    requires i <= |parts| && IsPlace(at, above)
    ensures DescribesAll(Listing(parts, i, at, live, o), parts, Paths(parts, i, above, o), above, live)
    decreases parts, |parts| - i, 1
  {
    if at.depth <= o.maxDepth && i < |parts| {
      HeadDescribes(parts, i, at, above, live, o);
      ListingDescribes(parts, i + 1, at, above, live, o);
    }
  }

  lemma {:induction false} HeadDescribes(
    parts: seq<Part>, i: nat, at: Place, above: seq<Part>, live: Live, o: Options)
    requires i < |parts| && IsPlace(at, above)
    ensures DescribesAll(Head(parts, i, at, live, o), parts, PathsOf(parts, i, above, o), above, live)
    decreases parts, |parts| - i, 0
  {
    ShutBeforeIsHere(parts, i, at, above, "text/plain");
    ShutBeforeIsHere(parts, i, at, above, "text/html");
    match parts[i]
    case Single(_) =>
    case Multi(_, _, children) =>
      BelowIsPlace(parts[i], at, above);
      if !Reuses(parts[i], at) {
        var now, chain := OpenAt(parts, i, at, live), above + [parts[i]];
        ListingDescribes(children, 0, Below(parts[i], at), chain, now, o);
        PathsInOrder(children, 0, chain, o);
        AllDescribedBelow(parts, i, at, above, live, Listing(children, 0, Below(parts[i], at), now, o),
                          Paths(children, 0, chain, o));
      }
  }

  lemma AllDescribedBelow(
    parts: seq<Part>, i: nat, at: Place, above: seq<Part>, live: Live, entries: seq<Entry>, paths: seq<seq<nat>>)
    requires i < |parts| && parts[i].Multi? && IsPlace(at, above)
    requires DescribesAll(entries, parts[i].children, paths, above + [parts[i]], OpenAt(parts, i, at, live))
    requires forall k :: 0 <= k < |paths| ==> paths[k] != []
    ensures DescribesAll(entries, parts, Prefixed(i, paths), above, live)
  {
    forall k | 0 <= k < |entries| ensures Describes(entries[k], parts, Prefixed(i, paths)[k], above, live) {
      DescribesBelow(parts, i, at, above, live, entries[k], paths[k]);
    }
  }

  /** The listing of a message has one entry for each part that is reached, in document order,
      and each entry says what the part is, what encloses it and what was shut before it. */
  lemma EntriesAreTheParts(root: Part, o: Options)
    ensures var paths := Paths([root], 0, [], o);
            && DescribesAll(Entries(root, o), [root], paths, [], BOTH)
            && InOrder(paths)
            && forall path :: path in paths <==> Reached([root], path, [], o)
  {
    RootPlace();
    ListingDescribes([root], 0, ROOT, [], BOTH, o);
    PathsInOrder([root], 0, [], o);
    forall path: seq<nat> ensures path in Paths([root], 0, [], o) <==> Reached([root], path, [], o) {
      PathsAreReached([root], 0, [], o, path);
    }
  }
}
