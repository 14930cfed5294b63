/** What saving, renaming and deleting labels does, told row by row and character by character. */
module LabelRows {
  import opened Labels

  /** Some row has the name. */
  predicate HasRow(rows: map<nat, Label>, name: string) {
    exists pk :: pk in rows && rows[pk].name == name
  }

  /** No two rows have the same name, and every part of a name that ends before a slash is the
      name of a row. */
  ghost predicate IsTree(rows: map<nat, Label>) {
    && (forall p, q :: p in rows && q in rows && rows[p].name == rows[q].name ==> p == q)
    && (forall p, i :: p in rows && 0 <= i < |rows[p].name| && rows[p].name[i] == '/' ==>
          HasRow(rows, rows[p].name[..i]))
  }

  lemma HasRowIsInNames(t: Table, name: string)
    ensures HasRow(t.rows, name) <==> name in Names(t)
  {
  }

  lemma ClosedIsTree(t: Table)
    ensures Valid(t) <==> IsTree(t.rows) && forall pk :: pk in t.rows ==> pk < t.next
  {
    forall name: string ensures HasRow(t.rows, name) <==> name in Names(t) {
      HasRowIsInNames(t, name);
    }
    if Valid(t) {
      forall p, i | p in t.rows && 0 <= i < |t.rows[p].name| && t.rows[p].name[i] == '/'
        ensures HasRow(t.rows, t.rows[p].name[..i])
      {
        NameOf(t, p);
        assert Under(t.rows[p].name, t.rows[p].name[..i]);
      }
    }
    if IsTree(t.rows) {
      forall n, a | n in Names(t) && Under(n, a) ensures a in Names(t) {
        var p :| p in t.rows && t.rows[p].name == n;
        assert n[..|a|] == a && HasRow(t.rows, t.rows[p].name[..|a|]);
      }
    }
  }

  /** `name` starts with `above` and a slash. */
  predicate IsBelow(name: string, above: string) {
    exists i :: 0 <= i < |name| && name[i] == '/' && name[..i] == above
  }

  lemma BelowIsUnder(name: string, above: string)
    ensures IsBelow(name, above) <==> Under(name, above)
  {
    if Under(name, above) {
      assert name[|above|] == '/' && name[..|above|] == above;
    }
  }

  // ------------------------------------------------------------------
  // Creating
  // ------------------------------------------------------------------

  /** Every row there was is there as it was, and each new one has this colour. */
  ghost predicate AddsInColour(t: Table, t': Table, color: string) {
    && t.next <= t'.next
    && (forall pk :: pk in t.rows ==> pk < t.next)
    && (forall pk :: pk in t.rows ==> pk in t'.rows && t'.rows[pk] == t.rows[pk])
    && (forall pk :: pk in t'.rows && pk !in t.rows ==> t'.rows[pk].color == color && t.next <= pk < t'.next)
  }

  lemma InsertInColour(t: Table, name: string, color: string)
    requires forall pk :: pk in t.rows ==> pk < t.next
    ensures AddsInColour(t, Insert(t, name, color), color)
  {
  }

  lemma AddsTransitive(a: Table, b: Table, c: Table, color: string)
    requires AddsInColour(a, b, color) && AddsInColour(b, c, color)
    ensures AddsInColour(a, c, color)
  {
  }

  lemma {:induction false} ParentsInColour(t: Table, name: string, i: nat, color: string)
    requires i <= |name| && forall pk :: pk in t.rows ==> pk < t.next
    ensures AddsInColour(t, EnsureParents(t, name, i, color), color)
    decreases |name|, |name| - i
  {
    if i < |name| {
      if name[i] == '/' {
        var t0, t1 := EnsureParents(t, name[..i], 0, color), GetOrCreate(t, name[..i], color);
        ParentsInColour(t, name[..i], 0, color);
        InsertInColour(t0, name[..i], color);
        AddsTransitive(t, t0, Insert(t0, name[..i], color), color);
        assert t1 == if name[..i] in Names(t) then t else SaveNew(t, name[..i], color);
        assert SaveNew(t, name[..i], color) == Insert(t0, name[..i], color);
        assert AddsInColour(t, t1, color);
        ParentsInColour(t1, name, i + 1, color);
        AddsTransitive(t, t1, EnsureParents(t1, name, i + 1, color), color);
      } else {
        ParentsInColour(t, name, i + 1, color);
      }
    }
  }

  /** The validation accepts the name and every part of it before a slash that is no label yet. */
  ghost predicate IsAccepted(rows: map<nat, Label>, name: string, check: Check) {
    check(name) && forall i :: 0 <= i < |name| && name[i] == '/' ==> HasRow(rows, name[..i]) || check(name[..i])
  }

  lemma {:induction false} NoneRefused(t: Table, name: string, i: nat, check: Check)
    requires i <= |name|
    ensures FirstRefused(t, name, i, check) == |name| <==>
              forall j :: i <= j < |name| && name[j] == '/' ==> HasRow(t.rows, name[..j]) || check(name[..j])
    decreases |name| - i
  {
    if i < |name| {
      HasRowIsInNames(t, name[..i]);
      NoneRefused(t, name, i + 1, check);
    }
  }

  /** Creating a label under a free name: it goes through exactly if the name and the missing
      labels above it are accepted, and then adds just those, in the colour of the label; a
      refused one adds at most some of the labels above it.  No row there was is touched. */
  lemma CreateAddsThePath(t: Table, name: string, color: string, check: Check)
    requires IsTree(t.rows) && (forall pk :: pk in t.rows ==> pk < t.next) && !HasRow(t.rows, name)
    ensures var r := TrySaveNew(t, name, color, check);
            && r.ok == IsAccepted(t.rows, name, check)
            && IsTree(r.table.rows)
            && (forall pk :: pk in t.rows ==> pk in r.table.rows && r.table.rows[pk] == t.rows[pk])
            && (forall pk :: pk in r.table.rows && pk !in t.rows ==>
                  && r.table.rows[pk].color == color
                  && (IsBelow(name, r.table.rows[pk].name) || (r.ok && r.table.rows[pk].name == name)))
            && HasRow(r.table.rows, name) == r.ok
  {
    ClosedIsTree(t);
    HasRowIsInNames(t, name);
    CreateIsValidEvenIfRefused(t, name, color, check);
    var r, k := TrySaveNew(t, name, color, check), FirstRefused(t, name, 0, check);
    NoneRefused(t, name, 0, check);
    ClosedIsTree(r.table);
    HasRowIsInNames(r.table, name);
    CreateInColour(t, name, color, check);
    AncestorsAreAbove(name, name);
    AncestorsAreAbove(name[..k], name);
    if r.ok {
      SaveNewIsValid(t, name, color);
    }
    forall pk | pk in r.table.rows && pk !in t.rows
      ensures IsBelow(name, r.table.rows[pk].name) || (r.ok && r.table.rows[pk].name == name)
    {
      NewNameIsOnThePath(t, r.table, name, if r.ok then |name| else k, pk);
    }
  }

  lemma CreateInColour(t: Table, name: string, color: string, check: Check)
    requires Valid(t) && name !in Names(t)
    ensures AddsInColour(t, TrySaveNew(t, name, color, check).table, color)
  {
    var k := FirstRefused(t, name, 0, check);
    TryParentsStops(t, name, 0, color, check);
    ParentsInColour(t, name[..k], 0, color);
    var t0 := EnsureParents(t, name[..k], 0, color);
    InsertInColour(t0, name, color);
    AddsTransitive(t, t0, Insert(t0, name, color), color);
  }

  /** A row that is new has a new name. */
  lemma NewNameIsOnThePath(t: Table, t': Table, name: string, k: nat, pk: nat)
    requires k <= |name| && Unique(t') && Extends(t, t') && pk in t'.rows && pk !in t.rows
    requires || Names(t') == Names(t) + Ancestors(name[..k])
             || (k == |name| && Names(t') == Names(t) + Ancestors(name) + {name})
    ensures IsBelow(name, t'.rows[pk].name) || (k == |name| && t'.rows[pk].name == name)
  {
    var n := t'.rows[pk].name;
    NameOf(t', pk);
    AncestorsAreAbove(name[..k], n);
    AncestorsAreAbove(name, n);
    BelowIsUnder(name, n);
    if Under(name[..k], n) {
      assert name[..k][..|n|] == name[..|n|];
      assert Under(name, n);
    }
  }

  // ------------------------------------------------------------------
  // Renaming
  // ------------------------------------------------------------------

  /** The name after what was called `from` is called `to`. */
  function Renamed(name: string, from: string, to: string): string {
    if |from| < |name| && name[..|from|] == from && name[|from|] == '/' then to + name[|from|..] else name
  }

  /** The rows after the move, the renamed one aside. */
  function MovedRows(rows: map<nat, Label>, from: string, to: string): map<nat, Label> {
    map q | q in rows :: Label(Renamed(rows[q].name, from, to), rows[q].color)
  }

  lemma MoveIsMovedRows(t: Table, from: string, to: string)
    ensures MoveChildren(t, from, to).rows == MovedRows(t.rows, from, to) && MoveChildren(t, from, to).next == t.next
  {
  }

  /** Renaming a label to a free name: it goes through exactly if the new name and the missing
      labels above it are accepted, counting what has moved by then; every row below the old
      name goes along; no other row changes; and only missing labels above the new name are
      added, in the colour of the renamed one.  A refused rename moves the rows below all the
      same, but not the row itself. */
  lemma RenameMovesTheRowsBelow(t: Table, pk: nat, to: string, check: Check)
    requires IsTree(t.rows) && (forall q :: q in t.rows ==> q < t.next)
    requires pk in t.rows && !HasRow(t.rows, to)
    ensures var r, from := TrySaveExisting(t, pk, to, check), t.rows[pk].name;
            && r.ok == IsAccepted(MovedRows(t.rows, from, to), to, check)
            && (forall q :: q in t.rows ==>
                  q in r.table.rows && r.table.rows[q] ==
                    if q != pk then Label(Renamed(t.rows[q].name, from, to), t.rows[q].color)
                    else if r.ok then Label(to, t.rows[pk].color)
                    else t.rows[pk])
            && (forall q :: q in r.table.rows && q !in t.rows ==>
                  r.table.rows[q].color == t.rows[pk].color && IsBelow(to, r.table.rows[q].name))
  {
    var from, color := t.rows[pk].name, t.rows[pk].color;
    var moved := MoveChildren(t, from, to);
    var k := FirstRefused(moved, to, 0, check);
    ClosedIsTree(t);
    HasRowIsInNames(t, to);
    MoveIsMovedRows(t, from, to);
    TryRenameStops(t, pk, to, check);
    NoneRefused(moved, to, 0, check);
    MoveChildrenIsUnique(t, pk, to);
    PathIsAdded(moved, to, k, color);
    if k == |to| {
      assert to[..k] == to;
      SaveExistingSettles(t, pk, to);
    }
  }

  /** The labels above the first `k` characters of a name, as far as they are missing. */
  lemma PathIsAdded(t: Table, name: string, k: nat, color: string)
    requires Unique(t) && k <= |name|
    ensures var t' := EnsureParents(t, name[..k], 0, color);
            && AddsInColour(t, t', color)
            && forall q :: q in t'.rows && q !in t.rows ==> IsBelow(name, t'.rows[q].name)
  {
    var t' := EnsureParents(t, name[..k], 0, color);
    ParentsInColour(t, name[..k], 0, color);
    EnsureParentsAdds(t, name[..k], 0, color);
    AncestorsAreAbove(name, name);
    forall q | q in t'.rows && q !in t.rows ensures IsBelow(name, t'.rows[q].name) {
      var n := t'.rows[q].name;
      NameOf(t', q);
      NewNameIsAbove(t, t', name[..k], q);
      BelowIsUnder(name, n);
      assert name[..k][..|n|] == name[..|n|];
    }
  }

  lemma NewNameIsAbove(t: Table, t': Table, name: string, q: nat)
    requires Unique(t') && Extends(t, t') && Names(t') == Names(t) + Ancestors(name)
    requires q in t'.rows && q !in t.rows
    ensures Under(name, t'.rows[q].name)
  {
    NameOf(t', q);
    AncestorsAreAbove(name, t'.rows[q].name);
    forall p | p in t.rows ensures t.rows[p].name != t'.rows[q].name {
      assert t'.rows[p] == t.rows[p];
    }
  }

  // ------------------------------------------------------------------
  // Deleting, and whole runs
  // ------------------------------------------------------------------

  /** A delete leaves exactly the rows that neither are the label nor start with its name and
      a slash. */
  lemma DeleteTakesTheRowsBelow(t: Table, pk: nat)
    requires IsTree(t.rows) && (forall q :: q in t.rows ==> q < t.next) && pk in t.rows
    ensures var t' := WithoutSubtree(t, t.rows[pk].name);
            && IsTree(t'.rows)
            && forall q :: q in t'.rows <==> q in t.rows && q != pk && !IsBelow(t.rows[q].name, t.rows[pk].name)
    ensures forall q :: q in WithoutSubtree(t, t.rows[pk].name).rows ==>
              WithoutSubtree(t, t.rows[pk].name).rows[q] == t.rows[q]
  {
    ClosedIsTree(t);
    DeleteRemovesTheSubtree(t, pk);
    ClosedIsTree(WithoutSubtree(t, t.rows[pk].name));
    forall q | q in t.rows
      ensures IsBelow(t.rows[q].name, t.rows[pk].name) <==> Under(t.rows[q].name, t.rows[pk].name)
    {
      BelowIsUnder(t.rows[q].name, t.rows[pk].name);
    }
  }

  /** One more operation at the end of a run. */
  lemma {:induction false} RunGoesOn(t: Table, ops: seq<Op>, op: Op)
    requires CanRun(t, ops) && Permitted(Run(t, ops), op)
    ensures CanRun(t, ops + [op])
    ensures Run(t, ops + [op]) ==
              match op
              case Create(name, color, check) => TrySaveNew(Run(t, ops), name, color, check).table
              case Rename(pk, name, check) => TrySaveExisting(Run(t, ops), pk, name, check).table
              case Delete(pk) => WithoutSubtree(Run(t, ops), Run(t, ops).rows[pk].name)
    decreases |ops|
  {
    if |ops| == 0 {
      assert (ops + [op])[1..] == [];
    } else {
      assert (ops + [op])[0] == ops[0] && (ops + [op])[1..] == ops[1..] + [op];
      RunGoesOn(Apply(t, ops[0]), ops[1..], op);
    }
  }

  /** After every run from an empty table the labels form a tree. */
  lemma LabelsAreATreeAfterEveryRun(ops: seq<Op>)
    requires CanRun(Table(map[], 0), ops)
    ensures IsTree(Run(Table(map[], 0), ops).rows)
  {
    EveryRunIsValid(Table(map[], 0), ops);
    ClosedIsTree(Run(Table(map[], 0), ops));
  }

  /** The direct children of a label are the labels whose name is its own, a slash, and then no
      further slash. */
  lemma DirectChildIsOneLevelDown(name: string, parent: string)
    ensures IsDirectChild(name, parent) <==>
              exists i :: 0 <= i < |name| && name[i] == '/' && name[..i] == parent && '/' !in name[i + 1..]
  {
    DirectChildrenHaveThatParent(name, parent);
    if '/' in name {
      ParentNameIsAbove(name);
    }
    if i :| 0 <= i < |name| && name[i] == '/' && name[..i] == parent && '/' !in name[i + 1..] {
      assert name == parent + "/" + name[i + 1..];
      ParentNameOf(parent, name[i + 1..]);
    }
  }
}
