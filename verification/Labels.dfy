/** The label tree of one mailbox: a table of slash-separated names. */
module Labels {

  datatype Label = Label(name: string, color: string)

  /** Rows by primary key; `next` is the key the next insert gets. */
  datatype Table = Table(rows: map<nat, Label>, next: nat)

  // ------------------------------------------------------------------
  // Names
  // ------------------------------------------------------------------

  /** `name` starts with `ancestor` and a slash. */
  predicate Under(name: string, ancestor: string) {
    |ancestor| < |name| && name[..|ancestor|] == ancestor && name[|ancestor|] == '/'
  }

  function Ancestors(name: string): set<string> {
    set i | 0 <= i < |name| && name[i] == '/' :: name[..i]
  }

  function Names(t: Table): set<string> {
    set pk | pk in t.rows :: t.rows[pk].name
  }

  lemma AncestorsAreAbove(name: string, a: string)
    ensures a in Ancestors(name) <==> Under(name, a)
  {
    if Under(name, a) {
      assert name[..|a|] == a;
    }
  }

  lemma UnderIsTransitive(a: string, b: string, c: string)
    requires Under(a, b) && Under(b, c)
    ensures Under(a, c)
  {
    assert a[..|b|][..|c|] == a[..|c|];
    assert a[..|b|][|c|] == a[|c|];
  }

  /** Two names above the same one are comparable. */
  lemma AncestorsAreLinear(name: string, a: string, b: string)
    requires Under(name, a) && Under(name, b)
    ensures a == b || Under(a, b) || Under(b, a)
  {
    if |a| < |b| {
      assert b[..|a|] == name[..|b|][..|a|] == name[..|a|];
      assert b[|a|] == name[..|b|][|a|];
    } else if |b| < |a| {
      assert a[..|b|] == name[..|a|][..|b|] == name[..|b|];
      assert a[|b|] == name[..|a|][|b|];
    } else {
      assert a == name[..|a|] == b;
    }
  }

  // ------------------------------------------------------------------
  // The invariant
  // ------------------------------------------------------------------

  /** Keys below `next`, names unique. */
  ghost predicate Unique(t: Table) {
    && (forall pk :: pk in t.rows ==> pk < t.next)
    && forall p, q :: p in t.rows && q in t.rows && t.rows[p].name == t.rows[q].name ==> p == q
  }

  /** The parent of every label exists. */
  ghost predicate Closed(t: Table) {
    forall n, a :: n in Names(t) && Under(n, a) ==> a in Names(t)
  }

  ghost predicate Valid(t: Table) {
    Unique(t) && Closed(t)
  }

  /** Every row of `t` is still there as it was. */
  ghost predicate Extends(t: Table, t': Table) {
    && t.next <= t'.next
    && (forall pk :: pk in t.rows ==> pk in t'.rows && t'.rows[pk] == t.rows[pk])
    && (forall pk :: pk in t'.rows && pk !in t.rows ==> t.next <= pk)
  }

  lemma NameOf(t: Table, pk: nat)
    requires pk in t.rows
    ensures t.rows[pk].name in Names(t)
  {
  }

  // ------------------------------------------------------------------
  // Saving a new label
  // ------------------------------------------------------------------

  function Insert(t: Table, name: string, color: string): Table {
    Table(t.rows[t.next := Label(name, color)], t.next + 1)
  }

  /** `get_or_create`. */
  function GetOrCreate(t: Table, name: string, color: string): Table
    decreases |name|, 0, 2
  {
    if name in Names(t) then t else SaveNew(t, name, color)
  }

  function SaveNew(t: Table, name: string, color: string): Table
    decreases |name|, 0, 1
  {
    Insert(EnsureParents(t, name, 0, color), name, color)
  }

  /** Gets or creates the ancestors that end at slash position `i` or later, shortest
      first. */
  function EnsureParents(t: Table, name: string, i: nat, color: string): Table
    requires i <= |name|
    decreases |name|, 0, 0, |name| - i
  {
    if i == |name| then t
    else if name[i] == '/' then EnsureParents(GetOrCreate(t, name[..i], color), name, i + 1, color)
    else EnsureParents(t, name, i + 1, color)
  }

  ghost predicate Reached(t: Table, name: string, i: nat)
    requires i <= |name|
  {
    forall j :: 0 <= j < i && name[j] == '/' ==> name[..j] in Names(t)
  }

  lemma InsertAdds(t: Table, name: string, color: string)
    requires Unique(t) && name !in Names(t)
    ensures var t' := Insert(t, name, color);
            Unique(t') && Extends(t, t') && Names(t') == Names(t) + {name}
  {
    var t' := Insert(t, name, color);
    forall pk | pk in t.rows ensures t.rows[pk].name in Names(t) && t.rows[pk].name != name {
      NameOf(t, pk);
    }
    forall n | n in Names(t) + {name} ensures n in Names(t') {
      if n == name {
        NameOf(t', t.next);
      } else {
        var pk :| pk in t.rows && t.rows[pk].name == n;
        NameOf(t', pk);
      }
    }
  }

  lemma ExtendsTransitive(a: Table, b: Table, c: Table)
    requires Extends(a, b) && Extends(b, c)
    ensures Extends(a, c)
  {
  }

  lemma {:induction false} EnsureParentsOfReached(t: Table, name: string, i: nat, color: string)
    requires i <= |name| && Reached(t, name, |name|)
    ensures EnsureParents(t, name, i, color) == t
    decreases |name| - i
  {
    if i < |name| {
      EnsureParentsOfReached(t, name, i + 1, color);
    }
  }

  /** Creating the ancestor that ends at position `i`, when all shorter ones exist. */
  lemma ParentIsAdded(t: Table, name: string, i: nat, color: string)
    requires i < |name| && name[i] == '/' && Unique(t) && Reached(t, name, i)
    ensures var t1 := GetOrCreate(t, name[..i], color);
            Unique(t1) && Extends(t, t1) && Names(t1) == Names(t) + {name[..i]}
  {
    var parent := name[..i];
    if parent !in Names(t) {
      forall j | 0 <= j < |parent| && parent[j] == '/' ensures parent[..j] in Names(t) {
        assert parent[..j] == name[..j];
      }
      EnsureParentsOfReached(t, parent, 0, color);
      assert GetOrCreate(t, parent, color) == SaveNew(t, parent, color) == Insert(t, parent, color);
      InsertAdds(t, parent, color);
    }
  }

  /** Exactly the missing ancestors are added, each once, and nothing else changes. */
  lemma {:induction false} EnsureParentsAdds(t: Table, name: string, i: nat, color: string)
    requires i <= |name| && Unique(t) && Reached(t, name, i)
    ensures var t' := EnsureParents(t, name, i, color);
            Unique(t') && Extends(t, t') && Names(t') == Names(t) + Ancestors(name)
    decreases |name| - i
  {
    if i == |name| {
      assert Ancestors(name) <= Names(t);
    } else if name[i] == '/' {
      var t1 := GetOrCreate(t, name[..i], color);
      ParentIsAdded(t, name, i, color);
      EnsureParentsAdds(t1, name, i + 1, color);
      ExtendsTransitive(t, t1, EnsureParents(t1, name, i + 1, color));
      assert name[..i] in Ancestors(name);
    } else {
      EnsureParentsAdds(t, name, i + 1, color);
    }
  }

  /** Saving a label under a free name adds that name and its missing ancestors, keeps
      every other row, and keeps names unique and parents present. */
  lemma SaveNewIsValid(t: Table, name: string, color: string)
    requires Valid(t) && name !in Names(t)
    ensures var t' := SaveNew(t, name, color);
            && Valid(t') && Extends(t, t')
            && Names(t') == Names(t) + Ancestors(name) + {name}
            && exists pk :: pk in t'.rows && pk !in t.rows && t'.rows[pk] == Label(name, color)
  {
    var t0, t' := EnsureParents(t, name, 0, color), SaveNew(t, name, color);
    EnsureParentsAdds(t, name, 0, color);
    AncestorsAreAbove(name, name);
    InsertAdds(t0, name, color);
    ExtendsTransitive(t, t0, t');
    assert t'.rows[t0.next] == Label(name, color);
    ClosedWithAncestors(t, t', name);
  }

  /** Adding a name together with all its ancestors keeps the table closed. */
  lemma ClosedWithAncestors(t: Table, t': Table, name: string)
    requires Closed(t) && Names(t') == Names(t) + Ancestors(name) + {name}
    ensures Closed(t')
  {
    forall n, a | n in Names(t') && Under(n, a) ensures a in Names(t') {
      if n !in Names(t) {
        AncestorsAreAbove(name, n);
        if n != name {
          UnderIsTransitive(name, n, a);
        }
        AncestorsAreAbove(name, a);
      }
    }
  }

  // ------------------------------------------------------------------
  // Saves that may be refused
  // ------------------------------------------------------------------

  /** The verdict of the final validation of one save on a row of a given name: a blank name
      is refused, and so is one whose slug is taken. */
  type Check = string -> bool

  /** The table a save leaves behind, and whether it went through. */
  datatype Saved = Saved(table: Table, ok: bool)

  /** `get_or_create` runs in a transaction of its own: refused, it leaves nothing behind. */
  function TryGetOrCreate(t: Table, name: string, color: string, check: Check): Saved
    decreases |name|, 0, 2
  {
    if name in Names(t) then Saved(t, true)
    else
      var r := TrySaveNew(t, name, color, check);
      if r.ok then r else Saved(t, false)
  }

  /** The save itself does not. */
  function TrySaveNew(t: Table, name: string, color: string, check: Check): Saved
    decreases |name|, 0, 1
  {
    var r := TryParents(t, name, 0, color, check);
    if r.ok && check(name) then Saved(Insert(r.table, name, color), true) else Saved(r.table, false)
  }

  function TryParents(t: Table, name: string, i: nat, color: string, check: Check): Saved
    requires i <= |name|
    decreases |name|, 0, 0, |name| - i
  {
    if i == |name| then Saved(t, true)
    else if name[i] == '/' then
      var r := TryGetOrCreate(t, name[..i], color, check);
      if r.ok then TryParents(r.table, name, i + 1, color, check) else r
    else TryParents(t, name, i + 1, color, check)
  }

  /** The end of the first ancestor, from position `i` on, that is missing and refused. */
  function FirstRefused(t: Table, name: string, i: nat, check: Check): (k: nat)
    requires i <= |name|
    ensures i <= k <= |name|
    decreases |name| - i
  {
    if i == |name| then i
    else if name[i] == '/' && name[..i] !in Names(t) && !check(name[..i]) then i
    else FirstRefused(t, name, i + 1, check)
  }

  lemma {:induction false} TryParentsOfReached(t: Table, name: string, i: nat, color: string, check: Check)
    requires i <= |name| && Reached(t, name, |name|)
    ensures TryParents(t, name, i, color, check) == Saved(t, true)
    decreases |name| - i
  {
    if i < |name| {
      TryParentsOfReached(t, name, i + 1, color, check);
    }
  }

  lemma TryParent(t: Table, name: string, i: nat, color: string, check: Check)
    requires i < |name| && name[i] == '/' && Reached(t, name, i)
    ensures TryGetOrCreate(t, name[..i], color, check)
         == if name[..i] in Names(t) || check(name[..i]) then Saved(GetOrCreate(t, name[..i], color), true)
            else Saved(t, false)
  {
    var parent := name[..i];
    if parent !in Names(t) {
      forall j | 0 <= j < |parent| && parent[j] == '/' ensures parent[..j] in Names(t) {
        assert parent[..j] == name[..j];
      }
      EnsureParentsOfReached(t, parent, 0, color);
      TryParentsOfReached(t, parent, 0, color, check);
      assert GetOrCreate(t, parent, color) == SaveNew(t, parent, color) == Insert(t, parent, color);
    }
  }

  /** A longer name is missing after the creation of a shorter one if it was before. */
  lemma {:induction false} FirstRefusedStays(t: Table, t': Table, parent: string, name: string, i: nat, check: Check)
    requires |parent| < i <= |name| && Names(t') == Names(t) + {parent}
    ensures FirstRefused(t', name, i, check) == FirstRefused(t, name, i, check)
    decreases |name| - i
  {
    if i < |name| {
      assert name[..i] != parent;
      FirstRefusedStays(t, t', parent, name, i + 1, check);
    }
  }

  /** The loop over the ancestors goes as far as the first refused one. */
  lemma {:induction false} TryParentsStops(t: Table, name: string, i: nat, color: string, check: Check)
    requires i <= |name| && Unique(t) && Reached(t, name, i)
    ensures var k := FirstRefused(t, name, i, check);
            TryParents(t, name, i, color, check) == Saved(EnsureParents(t, name[..k], i, color), k == |name|)
    decreases |name| - i
  {
    var k := FirstRefused(t, name, i, check);
    if i == |name| {
      assert name[..k] == name;
    } else if name[i] != '/' {
      TryParentsStops(t, name, i + 1, color, check);
    } else {
      TryParent(t, name, i, color, check);
      if k > i {
        var t1 := GetOrCreate(t, name[..i], color);
        ParentIsAdded(t, name, i, color);
        FirstRefusedStays(t, t1, name[..i], name, i + 1, check);
        TryParentsStops(t1, name, i + 1, color, check);
        assert name[..k][..i] == name[..i];
      }
    }
  }

  /** Adding all the ancestors of a name keeps the table closed, too. */
  lemma ClosedWithAncestorsOnly(t: Table, t': Table, name: string)
    requires Closed(t) && Names(t') == Names(t) + Ancestors(name)
    ensures Closed(t')
  {
    forall n, a | n in Names(t') && Under(n, a) ensures a in Names(t') {
      if n !in Names(t) {
        AncestorsAreAbove(name, n);
        UnderIsTransitive(name, n, a);
        AncestorsAreAbove(name, a);
      }
    }
  }

  /** A create goes through, as `SaveNewIsValid` describes, if the name and all its missing
      ancestors are accepted; a refused one may leave ancestors behind, and nothing else. */
  lemma CreateIsValidEvenIfRefused(t: Table, name: string, color: string, check: Check)
    requires Valid(t) && name !in Names(t)
    ensures var r, k := TrySaveNew(t, name, color, check), FirstRefused(t, name, 0, check);
            && Valid(r.table)
            && r.ok == (k == |name| && check(name))
            && (if r.ok then r.table == SaveNew(t, name, color)
                else Extends(t, r.table) && Names(r.table) == Names(t) + Ancestors(name[..k]))
  {
    var k := FirstRefused(t, name, 0, check);
    TryParentsStops(t, name, 0, color, check);
    assert k == |name| ==> name[..k] == name;
    EnsureParentsAdds(t, name[..k], 0, color);
    ClosedWithAncestorsOnly(t, EnsureParents(t, name[..k], 0, color), name[..k]);
    SaveNewIsValid(t, name, color);
  }

  // ------------------------------------------------------------------
  // Renaming
  // ------------------------------------------------------------------

  function Moved(name: string, old_: string, new_: string): string {
    if Under(name, old_) then new_ + name[|old_|..] else name
  }

  /** Every row below the old name gets the new prefix; the renamed row itself is still
      stored under its old name. */
  function MoveChildren(t: Table, old_: string, new_: string): Table {
    t.(rows := map pk | pk in t.rows :: t.rows[pk].(name := Moved(t.rows[pk].name, old_, new_)))
  }

  predicate HasChildren(t: Table, name: string) {
    exists pk :: pk in t.rows && Under(t.rows[pk].name, name)
  }

  /** The rows left when a label goes: neither it nor anything below it. */
  function WithoutSubtree(t: Table, name: string): Table {
    t.(rows := map pk | pk in t.rows && t.rows[pk].name != name && !Under(t.rows[pk].name, name) :: t.rows[pk])
  }

  /** One level of the orphan clean-up of the old path. */
  function CleanUpLevel(t: Table, self: nat, level: string, new_: string): Table {
    if HasChildren(t, level) || level == new_ then t
    else if exists pk :: pk in t.rows && t.rows[pk].name == level && pk != self then WithoutSubtree(t, level)
    else t
  }

  /** The clean-up, from the level ending at position `i` of the old name to the whole of
      it. */
  function CleanUp(t: Table, self: nat, old_: string, new_: string, i: nat): Table
    requires i <= |old_|
    decreases |old_| - i
  {
    if i == |old_| then CleanUpLevel(t, self, old_, new_)
    else if old_[i] == '/' then CleanUp(CleanUpLevel(t, self, old_[..i], new_), self, old_, new_, i + 1)
    else CleanUp(t, self, old_, new_, i + 1)
  }

  /** Saving the row `pk` under the name `new_`. */
  function SaveExisting(t: Table, pk: nat, new_: string): Table
    requires pk in t.rows
  {
    var row := t.rows[pk];
    var t1 := if row.name != new_ then CleanUp(MoveChildren(t, row.name, new_), pk, row.name, new_, 0) else t;
    var t2 := EnsureParents(t1, new_, 0, row.color);
    t2.(rows := t2.rows[pk := Label(new_, row.color)])
  }

  lemma MovedIsInjective(a: string, b: string, old_: string, new_: string)
    requires Under(a, old_) && Under(b, old_) && Moved(a, old_, new_) == Moved(b, old_, new_)
    ensures a == b
  {
    assert (new_ + a[|old_|..])[|new_|..] == a[|old_|..];
    assert (new_ + b[|old_|..])[|new_|..] == b[|old_|..];
    assert a == a[..|old_|] + a[|old_|..];
    assert b == b[..|old_|] + b[|old_|..];
  }

  lemma MovedIsUnder(a: string, old_: string, new_: string)
    requires Under(a, old_)
    ensures Under(Moved(a, old_, new_), new_)
  {
    assert (new_ + a[|old_|..])[..|new_|] == new_;
    assert (new_ + a[|old_|..])[|new_|] == a[|old_|];
  }

  /** Nothing sits below a free name, and no ancestor of a label is free. */
  lemma FreeMeansBare(t: Table, new_: string)
    requires Closed(t) && new_ !in Names(t)
    ensures forall pk :: pk in t.rows ==> !Under(t.rows[pk].name, new_) && t.rows[pk].name != new_
  {
    forall pk | pk in t.rows ensures !Under(t.rows[pk].name, new_) && t.rows[pk].name != new_ {
      NameOf(t, pk);
    }
  }

  lemma MoveChildrenIsUnique(t: Table, pk: nat, new_: string)
    requires Valid(t) && pk in t.rows && new_ !in Names(t)
    ensures Unique(MoveChildren(t, t.rows[pk].name, new_))
    ensures MoveChildren(t, t.rows[pk].name, new_).rows[pk] == t.rows[pk]
  {
    var old_ := t.rows[pk].name;
    var t1 := MoveChildren(t, old_, new_);
    FreeMeansBare(t, new_);
    forall p, q | p in t1.rows && q in t1.rows && t1.rows[p].name == t1.rows[q].name ensures p == q {
      var a, b := t.rows[p].name, t.rows[q].name;
      if Under(a, old_) {
        MovedIsUnder(a, old_, new_);
      }
      if Under(b, old_) {
        MovedIsUnder(b, old_, new_);
      }
      if Under(a, old_) && Under(b, old_) {
        MovedIsInjective(a, b, old_, new_);
      }
    }
  }

  /** The clean-up finds nothing to delete: the proper ancestors of the old name still
      have the renamed row below them, and the old name itself is that very row's. */
  lemma {:induction false} CleanUpDeletesNothing(t: Table, pk: nat, new_: string, i: nat)
    requires Unique(t) && pk in t.rows && i <= |t.rows[pk].name|
    ensures CleanUp(t, pk, t.rows[pk].name, new_, i) == t
    decreases |t.rows[pk].name| - i
  {
    var old_ := t.rows[pk].name;
    if i < |old_| {
      if old_[i] == '/' {
        assert Under(old_, old_[..i]);
        assert HasChildren(t, old_[..i]);
      }
      CleanUpDeletesNothing(t, pk, new_, i + 1);
    }
  }

  /** The table just before the renamed row itself is written. */
  function BeforeSettling(t: Table, pk: nat, new_: string): Table
    requires pk in t.rows
  {
    EnsureParents(MoveChildren(t, t.rows[pk].name, new_), new_, 0, t.rows[pk].color)
  }

  lemma SaveExistingSettles(t: Table, pk: nat, new_: string)
    requires Valid(t) && pk in t.rows && new_ !in Names(t)
    ensures var t1, t2 := MoveChildren(t, t.rows[pk].name, new_), BeforeSettling(t, pk, new_);
            && Unique(t1) && t1.rows[pk] == t.rows[pk]
            && Unique(t2) && Extends(t1, t2) && Names(t2) == Names(t1) + Ancestors(new_)
            && SaveExisting(t, pk, new_) == t2.(rows := t2.rows[pk := Label(new_, t.rows[pk].color)])
  {
    NameOf(t, pk);
    MoveChildrenIsUnique(t, pk, new_);
    CleanUpDeletesNothing(MoveChildren(t, t.rows[pk].name, new_), pk, new_, 0);
    EnsureParentsAdds(MoveChildren(t, t.rows[pk].name, new_), new_, 0, t.rows[pk].color);
  }

  /** What a rename to a free name does: the row moves, everything below it moves with it,
      all other rows stay, and of the new path only the missing ancestors are added. */
  lemma RenameMovesTheSubtree(t: Table, pk: nat, new_: string)
    requires Valid(t) && pk in t.rows && new_ !in Names(t)
    ensures var old_ := t.rows[pk].name;
            var t' := SaveExisting(t, pk, new_);
            && Unique(t')
            && t'.rows[pk] == t.rows[pk].(name := new_)
            && (forall q :: q in t.rows && q != pk ==>
                  q in t'.rows && t'.rows[q] == t.rows[q].(name := Moved(t.rows[q].name, old_, new_)))
            && (forall q :: q in t'.rows && q !in t.rows ==> Under(new_, t'.rows[q].name))
            && Ancestors(new_) - {old_} <= Names(t')
            && old_ !in Names(t')
  {
    var t1, t2 := MoveChildren(t, t.rows[pk].name, new_), BeforeSettling(t, pk, new_);
    NameOf(t, pk);
    SaveExistingSettles(t, pk, new_);
    NewFreshNames(t1, t2, new_);
    MovedNamesAreNotTarget(t, pk, new_);
    AncestorsAreAbove(new_, new_);
    SettleRow(t1, t2, pk, new_);
  }

  /** Rows added by creating parents carry ancestors of the target that were missing. */
  lemma NewFreshNames(t1: Table, t2: Table, new_: string)
    requires Unique(t2) && Extends(t1, t2) && Names(t2) == Names(t1) + Ancestors(new_)
    ensures forall q :: q in t2.rows && q !in t1.rows ==> Under(new_, t2.rows[q].name) && t2.rows[q].name !in Names(t1)
  {
    forall q | q in t2.rows && q !in t1.rows
      ensures Under(new_, t2.rows[q].name) && t2.rows[q].name !in Names(t1)
    {
      NameOf(t2, q);
      forall p | p in t1.rows ensures t1.rows[p].name != t2.rows[q].name {
        assert t2.rows[p] == t1.rows[p];
      }
      AncestorsAreAbove(new_, t2.rows[q].name);
    }
  }

  lemma MovedNamesAreNotTarget(t: Table, pk: nat, new_: string)
    requires Valid(t) && pk in t.rows && new_ !in Names(t)
    ensures new_ !in Names(MoveChildren(t, t.rows[pk].name, new_))
  {
    var t1 := MoveChildren(t, t.rows[pk].name, new_);
    FreeMeansBare(t, new_);
    if new_ in Names(t1) {
      var q :| q in t1.rows && t1.rows[q].name == new_;
      if Under(t.rows[q].name, t.rows[pk].name) {
        MovedIsUnder(t.rows[q].name, t.rows[pk].name, new_);
      }
    }
  }

  /** Storing the renamed row itself. */
  lemma SettleRow(t1: Table, t2: Table, pk: nat, new_: string)
    requires Unique(t2) && Extends(t1, t2) && pk in t1.rows
    requires new_ !in Names(t1) && Names(t2) == Names(t1) + Ancestors(new_) && new_ !in Ancestors(new_)
    ensures var t' := t2.(rows := t2.rows[pk := Label(new_, t1.rows[pk].color)]);
            Unique(t') && Names(t') == Names(t2) - {t1.rows[pk].name} + {new_}
  {
    var t' := t2.(rows := t2.rows[pk := Label(new_, t1.rows[pk].color)]);
    forall q | q in t2.rows ensures t2.rows[q].name != new_ {
      NameOf(t2, q);
    }
    forall n | n in Names(t2) - {t1.rows[pk].name} + {new_} ensures n in Names(t') {
      if n == new_ {
        NameOf(t', pk);
      } else {
        var q :| q in t2.rows && t2.rows[q].name == n;
        NameOf(t', q);
      }
    }
  }

  /** Parents stay present exactly when the new name is not beneath the old one. */
  lemma RenameIsClosedUnlessBeneath(t: Table, pk: nat, new_: string)
    requires Valid(t) && pk in t.rows && new_ !in Names(t)
    ensures Closed(SaveExisting(t, pk, new_)) <==> !Under(new_, t.rows[pk].name)
  {
    var old_ := t.rows[pk].name;
    var t' := SaveExisting(t, pk, new_);
    RenameMovesTheSubtree(t, pk, new_);
    NameOf(t', pk);
    if !Under(new_, old_) {
      forall n, a | n in Names(t') && Under(n, a) ensures a in Names(t') {
        var q :| q in t'.rows && t'.rows[q].name == n;
        ParentAfterRename(t, pk, new_, q, a);
      }
    }
  }

  lemma ParentAfterRename(t: Table, pk: nat, new_: string, q: nat, a: string)
    requires Valid(t) && pk in t.rows && new_ !in Names(t) && !Under(new_, t.rows[pk].name)
    requires var t' := SaveExisting(t, pk, new_); q in t'.rows && Under(t'.rows[q].name, a)
    ensures a in Names(SaveExisting(t, pk, new_))
  {
    var old_ := t.rows[pk].name;
    var t' := SaveExisting(t, pk, new_);
    RenameMovesTheSubtree(t, pk, new_);
    NameOf(t', pk);
    var n := t'.rows[q].name;
    if q !in t.rows || q == pk {
      if q != pk {
        UnderIsTransitive(new_, n, a);
      }
      AncestorsAreAbove(new_, a);
    } else if Under(t.rows[q].name, old_) {
      MovedParent(t, pk, new_, q, a);
    } else {
      UnmovedParent(t, pk, new_, q, a);
    }
  }

  /** A name above a moved one, below the new prefix, is where some name above the
      original went. */
  lemma AboveMoved(n: string, old_: string, new_: string, a: string)
    requires Under(n, old_) && Under(Moved(n, old_, new_), a) && Under(a, new_)
    ensures var b := old_ + a[|new_|..];
            Under(n, b) && Under(b, old_) && Moved(b, old_, new_) == a
  {
    var m, b := Moved(n, old_, new_), old_ + a[|new_|..];
    var suffix := n[|old_|..];
    assert m == new_ + suffix;
    assert a == m[..|a|];
    assert a[|new_|..] == suffix[..|a| - |new_|];
    assert n == old_ + suffix;
    assert n[..|b|] == b;
    assert n[|b|] == suffix[|a| - |new_|] == m[|a|];
    assert b[..|old_|] == old_ && b[|old_|] == a[|new_|];
    assert b[|old_|..] == a[|new_|..];
    assert a == new_ + a[|new_|..];
  }

  /** The parent of a row that moved: it moved too, or it is on the new path. */
  lemma MovedParent(t: Table, pk: nat, new_: string, q: nat, a: string)
    requires Valid(t) && pk in t.rows && new_ !in Names(t) && !Under(new_, t.rows[pk].name)
    requires q in t.rows && Under(t.rows[q].name, t.rows[pk].name)
    requires Under(Moved(t.rows[q].name, t.rows[pk].name, new_), a)
    ensures a in Names(SaveExisting(t, pk, new_))
  {
    var old_, t' := t.rows[pk].name, SaveExisting(t, pk, new_);
    var n := t.rows[q].name;
    RenameMovesTheSubtree(t, pk, new_);
    NameOf(t', pk);
    MovedIsUnder(n, old_, new_);
    AncestorsAreLinear(Moved(n, old_, new_), a, new_);
    if Under(a, new_) {
      AboveMoved(n, old_, new_, a);
      NameOf(t, q);
      var p :| p in t.rows && t.rows[p].name == old_ + a[|new_|..];
      NameOf(t', p);
    } else {
      AncestorsAreAbove(new_, a);
    }
  }

  /** The parent of a row that stayed put stayed put as well. */
  lemma UnmovedParent(t: Table, pk: nat, new_: string, q: nat, a: string)
    requires Valid(t) && pk in t.rows && new_ !in Names(t)
    requires q in t.rows && q != pk && !Under(t.rows[q].name, t.rows[pk].name)
    requires Under(t.rows[q].name, a)
    ensures a in Names(SaveExisting(t, pk, new_))
  {
    var old_, t' := t.rows[pk].name, SaveExisting(t, pk, new_);
    RenameMovesTheSubtree(t, pk, new_);
    NameOf(t, q);
    var p :| p in t.rows && t.rows[p].name == a;
    if Under(a, old_) {
      UnderIsTransitive(t.rows[q].name, a, old_);
    }
    assert p != pk;
    NameOf(t', p);
  }

  /** Renaming there and back again restores the name of every row. */
  lemma RenameBackRestores(t: Table, pk: nat, new_: string)
    requires Valid(t) && pk in t.rows && new_ !in Names(t) && !Under(new_, t.rows[pk].name)
    ensures var there := SaveExisting(t, pk, new_);
            var back := SaveExisting(there, pk, t.rows[pk].name);
            forall q :: q in t.rows ==> q in back.rows && back.rows[q] == t.rows[q]
  {
    var old_ := t.rows[pk].name;
    var there := SaveExisting(t, pk, new_);
    RenameMovesTheSubtree(t, pk, new_);
    RenameIsClosedUnlessBeneath(t, pk, new_);
    RenameMovesTheSubtree(there, pk, old_);
    FreeMeansBare(t, new_);
    forall q | q in t.rows && q != pk
      ensures Moved(Moved(t.rows[q].name, old_, new_), new_, old_) == t.rows[q].name
    {
      var n := t.rows[q].name;
      if Under(n, old_) {
        MovedIsUnder(n, old_, new_);
        assert (new_ + n[|old_|..])[|new_|..] == n[|old_|..];
        assert n == n[..|old_|] + n[|old_|..];
      }
    }
  }

  // ------------------------------------------------------------------
  // Renames that may be refused
  // ------------------------------------------------------------------

  /** `save` is no transaction: what lies below has moved before the row is validated. */
  function TrySaveExisting(t: Table, pk: nat, new_: string, check: Check): Saved
    requires pk in t.rows
  {
    var row := t.rows[pk];
    var t1 := if row.name != new_ then CleanUp(MoveChildren(t, row.name, new_), pk, row.name, new_, 0) else t;
    var r := TryParents(t1, new_, 0, row.color, check);
    if r.ok && check(new_) then Saved(r.table.(rows := r.table.rows[pk := Label(new_, row.color)]), true)
    else Saved(r.table, false)
  }

  /** What a rename that goes through does is what `RenameMovesTheSubtree` says; a refused
      one has moved the children and created some ancestors. */
  lemma TryRenameStops(t: Table, pk: nat, new_: string, check: Check)
    requires Valid(t) && pk in t.rows && new_ !in Names(t)
    ensures var r, moved := TrySaveExisting(t, pk, new_, check), MoveChildren(t, t.rows[pk].name, new_);
            var k := FirstRefused(moved, new_, 0, check);
            && r.ok == (k == |new_| && check(new_))
            && (if r.ok then r.table == SaveExisting(t, pk, new_)
                else r.table == EnsureParents(moved, new_[..k], 0, t.rows[pk].color))
  {
    var moved := MoveChildren(t, t.rows[pk].name, new_);
    NameOf(t, pk);
    MoveChildrenIsUnique(t, pk, new_);
    CleanUpDeletesNothing(moved, pk, new_, 0);
    TryParentsStops(moved, new_, 0, t.rows[pk].color, check);
    var k := FirstRefused(moved, new_, 0, check);
    assert k == |new_| ==> new_[..k] == new_;
  }

  lemma BareMovesNothing(t: Table, old_: string, new_: string)
    requires !HasChildren(t, old_)
    ensures MoveChildren(t, old_, new_) == t
  {
    assert forall pk :: pk in t.rows ==> MoveChildren(t, old_, new_).rows[pk] == t.rows[pk];
    assert MoveChildren(t, old_, new_).rows == t.rows;
  }

  /** A refused rename to a free name leaves the row as it was and names unique; parents stay
      present if and only if nothing was below the label. */
  lemma RefusedRenameIsClosedExactlyWhenBare(t: Table, pk: nat, new_: string, check: Check)
    requires Valid(t) && pk in t.rows && new_ !in Names(t)
    requires !TrySaveExisting(t, pk, new_, check).ok
    ensures var t' := TrySaveExisting(t, pk, new_, check).table;
            && Unique(t') && pk in t'.rows && t'.rows[pk] == t.rows[pk]
            && (Closed(t') <==> !HasChildren(t, t.rows[pk].name))
  {
    var old_, color := t.rows[pk].name, t.rows[pk].color;
    var moved := MoveChildren(t, old_, new_);
    var k := FirstRefused(moved, new_, 0, check);
    var t' := EnsureParents(moved, new_[..k], 0, color);
    TryRenameStops(t, pk, new_, check);
    MoveChildrenIsUnique(t, pk, new_);
    EnsureParentsAdds(moved, new_[..k], 0, color);
    if HasChildren(t, old_) {
      var q :| q in t.rows && Under(t.rows[q].name, old_);
      MovedIsUnder(t.rows[q].name, old_, new_);
      NameOf(t', q);
      MovedNamesAreNotTarget(t, pk, new_);
      AncestorsAreAbove(new_[..k], new_);
      assert new_ !in Names(t');
    } else {
      BareMovesNothing(t, old_, new_);
      ClosedWithAncestorsOnly(t, t', new_[..k]);
    }
  }

  /** Saving a label under its own name changes nothing, refused or not. */
  lemma TrySaveUnchangedKeeps(t: Table, pk: nat, check: Check)
    requires Valid(t) && pk in t.rows
    ensures TrySaveExisting(t, pk, t.rows[pk].name, check).table == t
  {
    var name, color := t.rows[pk].name, t.rows[pk].color;
    NameOf(t, pk);
    forall j | 0 <= j < |name| && name[j] == '/' ensures name[..j] in Names(t) {
      assert Under(name, name[..j]);
    }
    TryParentsOfReached(t, name, 0, color, check);
    assert t.rows[pk := Label(name, color)] == t.rows;
  }

  /** Two labels, the second below the first. */
  const NESTED := Table(map[0 := Label("a", ""), 1 := Label("a/x", "")], 2)

  lemma NestedIsValid()
    ensures Valid(NESTED) && Names(NESTED) == {"a", "a/x"}
  {
    assert NESTED.rows[0].name == "a" && NESTED.rows[1].name == "a/x";
    NameOf(NESTED, 0);
    NameOf(NESTED, 1);
    assert !Under("a", "") && !Under("a/x", "");
    forall n, a | n in Names(NESTED) && Under(n, a) ensures a in Names(NESTED) {
      assert |a| < |n| && n[|a|] == '/';
      if n == "a/x" {
        assert |a| == 1 && a == "a/x"[..1] == "a";
      }
    }
  }

  /** A label renamed beneath itself, "a" to "a/b", goes away from above its new place. */
  lemma RenameBeneathItselfLosesTheParent()
    ensures Valid(NESTED) && !Closed(SaveExisting(NESTED, 0, "a/b"))
  {
    NestedIsValid();
    assert "a/b"[..1] == "a" && "a/b"[1] == '/' && "a/b"[2] != "a/x"[2];
    assert Under("a/b", "a");
    RenameIsClosedUnlessBeneath(NESTED, 0, "a/b");
  }

  /** Renaming "a" to "/b" is refused for the blank ancestor, after "a/x" has become "/b/x". */
  lemma RefusedRenameOrphansTheChild(check: Check)
    requires !check("")
    ensures var r := TrySaveExisting(NESTED, 0, "/b", check);
            !r.ok && r.table.rows[0].name == "a" && r.table.rows[1].name == "/b/x" && !Closed(r.table)
  {
    NestedIsValid();
    assert "a/x"[..1] == "a" && "a/x"[1..] == "/x";
    assert Under("a/x", "a") && Under(NESTED.rows[1].name, "a");
    assert HasChildren(NESTED, "a");
    var moved := MoveChildren(NESTED, "a", "/b");
    assert moved.rows[1].name == "/b" + "/x" == "/b/x" && moved.rows[0].name == "a";
    assert "/b"[..0] == "" && "" !in Names(moved);
    assert FirstRefused(moved, "/b", 0, check) == 0;
    TryRenameStops(NESTED, 0, "/b", check);
    assert "/b"[..0] == "";
    RefusedRenameIsClosedExactlyWhenBare(NESTED, 0, "/b", check);
  }

  // ------------------------------------------------------------------
  // Deleting
  // ------------------------------------------------------------------

  /** A delete removes exactly the label and what is below it, and keeps the table
      valid. */
  lemma DeleteRemovesTheSubtree(t: Table, pk: nat)
    requires Valid(t) && pk in t.rows
    ensures var t' := WithoutSubtree(t, t.rows[pk].name);
            && Valid(t')
            && forall q :: q in t'.rows <==> q in t.rows && q != pk && !Under(t.rows[q].name, t.rows[pk].name)
  {
    var name := t.rows[pk].name;
    var t' := WithoutSubtree(t, name);
    forall n, a | n in Names(t') && Under(n, a) ensures a in Names(t') {
      var q :| q in t'.rows && t'.rows[q].name == n;
      NameOf(t, q);
      var p :| p in t.rows && t.rows[p].name == a;
      if Under(a, name) {
        UnderIsTransitive(n, a, name);
      }
      NameOf(t', p);
    }
  }

  // ------------------------------------------------------------------
  // Whole runs
  // ------------------------------------------------------------------

  /** `check` is the verdict of the validations this operation meets. */
  datatype Op =
    | Create(name: string, color: string, check: Check)
    | Rename(pk: nat, name: string, check: Check)
    | Delete(pk: nat)

  /** Target names are free, a rename does not go beneath the label itself, and one that will
      be refused is not of a label with others below it. */
  predicate Permitted(t: Table, op: Op) {
    match op
    case Create(name, _, _) => name !in Names(t)
    case Rename(pk, name, check) =>
      && pk in t.rows
      && (|| name == t.rows[pk].name
          || (&& name !in Names(t) && !Under(name, t.rows[pk].name)
              && (TrySaveExisting(t, pk, name, check).ok || !HasChildren(t, t.rows[pk].name))))
    case Delete(pk) => pk in t.rows
  }

  function Apply(t: Table, op: Op): Table
    requires Permitted(t, op)
  {
    match op
    case Create(name, color, check) => TrySaveNew(t, name, color, check).table
    case Rename(pk, name, check) => TrySaveExisting(t, pk, name, check).table
    case Delete(pk) => WithoutSubtree(t, t.rows[pk].name)
  }

  predicate CanRun(t: Table, ops: seq<Op>)
    decreases |ops|
  {
    |ops| == 0 || (Permitted(t, ops[0]) && CanRun(Apply(t, ops[0]), ops[1..]))
  }

  function Run(t: Table, ops: seq<Op>): Table
    requires CanRun(t, ops)
    decreases |ops|
  {
    if |ops| == 0 then t else Run(Apply(t, ops[0]), ops[1..])
  }

  lemma ApplyIsValid(t: Table, op: Op)
    requires Valid(t) && Permitted(t, op)
    ensures Valid(Apply(t, op))
  {
    match op
    case Create(name, color, check) => CreateIsValidEvenIfRefused(t, name, color, check);
    case Rename(pk, name, check) =>
      if name == t.rows[pk].name {
        TrySaveUnchangedKeeps(t, pk, check);
      } else if TrySaveExisting(t, pk, name, check).ok {
        TryRenameStops(t, pk, name, check);
        RenameMovesTheSubtree(t, pk, name);
        RenameIsClosedUnlessBeneath(t, pk, name);
      } else {
        RefusedRenameIsClosedExactlyWhenBare(t, pk, name, check);
      }
    case Delete(pk) => DeleteRemovesTheSubtree(t, pk);
  }

  /** Every run of creates, renames and deletes, refused ones included, keeps the names of a
      mailbox unique and closed under parents. */
  lemma {:induction false} EveryRunIsValid(t: Table, ops: seq<Op>)
    requires Valid(t) && CanRun(t, ops)
    ensures Valid(Run(t, ops))
    decreases |ops|
  {
    if |ops| > 0 {
      ApplyIsValid(t, ops[0]);
      EveryRunIsValid(Apply(t, ops[0]), ops[1..]);
    }
  }

  /** A blank ancestor, which a name with a leading slash has, is the first to be refused. */
  lemma BlankStopsAtOnce(t: Table, name: string, check: Check)
    requires "" !in Names(t) && !check("") && Under(name, "")
    ensures FirstRefused(t, name, 0, check) == 0
  {
    assert name[..0] == "";
  }

  lemma ApplyStoresNoBlank(t: Table, op: Op)
    requires Valid(t) && Permitted(t, op) && "" !in Names(t)
    requires !op.Delete? ==> !op.check("")
    ensures "" !in Names(Apply(t, op))
  {
    match op
    case Delete(pk) =>
      forall q | q in t.rows ensures t.rows[q].name != "" {
        NameOf(t, q);
      }
    case Create(name, color, check) =>
      var k := FirstRefused(t, name, 0, check);
      CreateIsValidEvenIfRefused(t, name, color, check);
      SaveNewIsValid(t, name, color);
      AncestorsAreAbove(name, "");
      AncestorsAreAbove(name[..k], "");
      if Under(name, "") {
        BlankStopsAtOnce(t, name, check);
      }
    case Rename(pk, name, check) =>
      if name == t.rows[pk].name {
        TrySaveUnchangedKeeps(t, pk, check);
      } else {
        RenameStoresNoBlank(t, pk, name, check);
      }
  }

  lemma RenameStoresNoBlank(t: Table, pk: nat, new_: string, check: Check)
    requires Valid(t) && pk in t.rows && new_ !in Names(t)
    requires "" !in Names(t) && !check("")
    ensures "" !in Names(TrySaveExisting(t, pk, new_, check).table)
  {
    var old_, color := t.rows[pk].name, t.rows[pk].color;
    var moved := MoveChildren(t, old_, new_);
    var k := FirstRefused(moved, new_, 0, check);
    TryRenameStops(t, pk, new_, check);
    MoveChildrenIsUnique(t, pk, new_);
    forall q | q in moved.rows ensures moved.rows[q].name != "" {
      NameOf(t, q);
    }
    if Under(new_, "") {
      BlankStopsAtOnce(moved, new_, check);
    }
    AncestorsAreAbove(new_[..k], "");
    assert k == |new_| ==> new_[..k] == new_;
    EnsureParentsAdds(moved, new_[..k], 0, color);
    SaveExistingSettles(t, pk, new_);
    var t2 := BeforeSettling(t, pk, new_);
    forall q | q in t2.rows && k == |new_| ensures t2.rows[q].name != "" {
      NameOf(t2, q);
    }
  }

  /** No run stores a label without a name. */
  lemma {:induction false} NoRunStoresABlankName(t: Table, ops: seq<Op>)
    requires Valid(t) && CanRun(t, ops) && "" !in Names(t)
    requires forall i :: 0 <= i < |ops| && !ops[i].Delete? ==> !ops[i].check("")
    ensures "" !in Names(Run(t, ops))
    decreases |ops|
  {
    if |ops| > 0 {
      ApplyIsValid(t, ops[0]);
      ApplyStoresNoBlank(t, ops[0]);
      NoRunStoresABlankName(Apply(t, ops[0]), ops[1..]);
    }
  }

  // ------------------------------------------------------------------
  // Direct children
  // ------------------------------------------------------------------

  function Depth(name: string): nat {
    if name == "" then 0 else (if name[0] == '/' then 1 else 0) + Depth(name[1..])
  }

  lemma {:induction false} DepthConcat(a: string, b: string)
    ensures Depth(a + b) == Depth(a) + Depth(b)
  {
    if a == "" {
      assert a + b == b;
    } else {
      assert (a + b)[1..] == a[1..] + b;
      DepthConcat(a[1..], b);
    }
  }

  lemma {:induction false} DepthZero(s: string)
    ensures Depth(s) == 0 <==> '/' !in s
  {
    if s != "" {
      DepthZero(s[1..]);
      assert s == [s[0]] + s[1..];
    }
  }

  /** Everything before the last slash; meant for names that have one. */
  function ParentName(name: string): string
    requires '/' in name
  {
    if name[|name| - 1] == '/' then name[..|name| - 1]
    else
      assert name == name[..|name| - 1] + [name[|name| - 1]];
      ParentName(name[..|name| - 1])
  }

  lemma {:induction false} ParentNameOf(parent: string, last: string)
    requires '/' !in last
    ensures '/' in parent + "/" + last && ParentName(parent + "/" + last) == parent
    decreases |last|
  {
    var s := parent + "/" + last;
    assert s[|parent|] == '/';
    if last == "" {
      assert s[..|s| - 1] == parent;
    } else {
      assert last == last[..|last| - 1] + [last[|last| - 1]];
      assert s[..|s| - 1] == parent + "/" + last[..|last| - 1];
      assert s[|s| - 1] == last[|last| - 1];
      ParentNameOf(parent, last[..|last| - 1]);
    }
  }

  lemma {:induction false} ParentNameIsAbove(name: string)
    requires '/' in name
    ensures Under(name, ParentName(name)) && '/' !in name[|ParentName(name)| + 1..]
  {
    if name[|name| - 1] == '/' {
    } else {
      var init := name[..|name| - 1];
      assert name == init + [name[|name| - 1]];
      ParentNameIsAbove(init);
      var p := ParentName(init);
      assert name[|p| + 1..] == init[|p| + 1..] + [name[|name| - 1]];
    }
  }

  /** The label listed among the direct children of `parent`: below it and one level
      deeper. */
  predicate IsDirectChild(name: string, parent: string) {
    Under(name, parent) && Depth(name) == Depth(parent) + 1
  }

  /** Those are exactly the labels whose parent name it is. */
  lemma DirectChildrenHaveThatParent(name: string, parent: string)
    ensures IsDirectChild(name, parent) <==> '/' in name && ParentName(name) == parent
  {
    if Under(name, parent) {
      var last := name[|parent| + 1..];
      assert name == parent + "/" + last;
      DepthConcat(parent + "/", last);
      DepthConcat(parent, "/");
      assert "/"[1..] == "";
      assert Depth("/") == 1;
      DepthZero(last);
      if '/' !in last {
        ParentNameOf(parent, last);
      }
    }
    if '/' in name {
      ParentNameIsAbove(name);
    }
  }

  // ------------------------------------------------------------------
  // The table as it is mutated
  // ------------------------------------------------------------------

  class LabelTable {
    var rows: map<nat, Label>
    var next: nat

    constructor ()
      ensures Now() == Table(map[], 0)
    {
      rows, next := map[], 0;
    }

    function Now(): Table
      reads this
    {
      Table(rows, next)
    }

    /** A label seen for the first time. */
    method Create(name: string, color: string, check: Check) returns (ok: bool)
      modifies this
      ensures Saved(Now(), ok) == TrySaveNew(old(Now()), name, color, check)
      decreases |name|, 1
    {
      ok := CreateParents(name, color, check);
      if !ok {
        return;
      }
      ok := check(name);
      if ok {
        rows := rows[next := Label(name, color)];
        next := next + 1;
      }
    }

    /** The loop of `save` over the ancestors, shortest first; creating one saves it in
        turn, on a strictly shorter name. */
    method CreateParents(name: string, color: string, check: Check) returns (ok: bool)
      modifies this
      ensures Saved(Now(), ok) == TryParents(old(Now()), name, 0, color, check)
      decreases |name|, 0
    {
      var i := 0;
      while i < |name|
        invariant 0 <= i <= |name|
        invariant TryParents(Now(), name, i, color, check) == TryParents(old(Now()), name, 0, color, check)
      {
        if name[i] == '/' {
          ok := GetOrCreate(name[..i], color, check);
          if !ok {
            return;
          }
        }
        i := i + 1;
      }
      return true;
    }

    /** A refused creation is rolled back. */
    method GetOrCreate(name: string, color: string, check: Check) returns (ok: bool)
      modifies this
      ensures Saved(Now(), ok) == TryGetOrCreate(old(Now()), name, color, check)
      decreases |name|, 2
    {
      if name in Names(Now()) {
        return true;
      }
      var before := Now();
      ok := Create(name, color, check);
      if !ok {
        rows, next := before.rows, before.next;
      }
    }

    /** Saving a stored label under a name of the caller's choice; nothing is rolled back. */
    method Save(pk: nat, newName: string, check: Check) returns (ok: bool)
      requires pk in rows
      modifies this
      ensures Saved(Now(), ok) == TrySaveExisting(old(Now()), pk, newName, check)
    {
      var row := rows[pk];
      if row.name != newName {
        rows := map q | q in rows :: rows[q].(name := Moved(rows[q].name, row.name, newName));
        CleanUpOrphans(pk, row.name, newName);
      }
      ok := CreateParents(newName, row.color, check);
      if !ok {
        return;
      }
      ok := check(newName);
      if ok {
        rows := rows[pk := Label(newName, row.color)];
      }
    }

    method CleanUpOrphans(pk: nat, oldName: string, newName: string)
      modifies this
      ensures Now() == CleanUp(old(Now()), pk, oldName, newName, 0)
    {
      var i := 0;
      while i < |oldName|
        invariant 0 <= i <= |oldName|
        invariant CleanUp(Now(), pk, oldName, newName, i) == CleanUp(old(Now()), pk, oldName, newName, 0)
      {
        if oldName[i] == '/' {
          CleanUpOne(pk, oldName[..i], newName);
        }
        i := i + 1;
      }
      CleanUpOne(pk, oldName, newName);
    }

    method CleanUpOne(pk: nat, level: string, newName: string)
      modifies this
      ensures Now() == CleanUpLevel(old(Now()), pk, level, newName)
    {
      if !HasChildren(Now(), level) && level != newName {
        if exists q :: q in rows && rows[q].name == level && q != pk {
          DeleteNamed(level);
        }
      }
    }

    /** Children first, then the label itself. */
    method DeleteNamed(name: string)
      modifies this
      ensures Now() == WithoutSubtree(old(Now()), name)
    {
      rows := map q | q in rows && !Under(rows[q].name, name) :: rows[q];
      rows := map q | q in rows && rows[q].name != name :: rows[q];
    }

    method Delete(pk: nat)
      requires pk in rows
      modifies this
      ensures Now() == WithoutSubtree(old(Now()), old(rows[pk].name))
    {
      DeleteNamed(rows[pk].name);
    }
  }
}
