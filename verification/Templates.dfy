/** The message-template table: saves that displace one another, and the signature a
    mailbox is made to use. */
module Templates {
  import opened Wrappers

  datatype Kind = Message | Signature | Autoreply

  /** `metadataOk` says whether the autoreply schedule validates. */
  datatype Template = Template(
    kind: Kind,
    mailbox: Option<nat>,
    maildomain: Option<nat>,
    forced: bool,
    isDefault: bool,
    active: bool,
    metadataOk: bool)

  type Rows = map<nat, Template>

  datatype Error = NoOwner | TwoOwners | AutoreplyNotScoped | AutoreplyFlagged | BadMetadata

  datatype Result = Ok(template: Template) | Err(error: Error)

  // ------------------------------------------------------------------
  // Saving
  // ------------------------------------------------------------------

  /** `clean`: the template as it will be stored, or why it is refused. */
  function Clean(x: Template): Result {
    if x.mailbox.None? && x.maildomain.None? then Err(NoOwner)
    else if x.mailbox.Some? && x.maildomain.Some? then Err(TwoOwners)
    else
      var y := if x.active then x else x.(forced := false, isDefault := false);
      if !y.kind.Autoreply? then Ok(y)
      else if y.mailbox.None? then Err(AutoreplyNotScoped)
      else if y.forced || y.isDefault then Err(AutoreplyFlagged)
      else if !y.metadataOk then Err(BadMetadata)
      else Ok(y)
  }

  /** Whether the scope filter of a save of `x` selects `y`: by mailbox if it has one,
      else by domain, else not at all. */
  predicate InScopeOf(y: Template, x: Template) {
    if x.mailbox.Some? then y.mailbox == x.mailbox
    else if x.maildomain.Some? then y.maildomain == x.maildomain
    else true
  }

  /** The three displacing updates, each as what it does to one other row. */
  function Unforced(y: Template, x: Template): Template {
    if x.forced && y.kind == x.kind && y.forced && InScopeOf(y, x) then y.(forced := false) else y
  }

  function Deactivated(y: Template, x: Template): Template {
    if x.kind.Autoreply? && x.active && x.mailbox.Some? && y.kind.Autoreply? && y.active && y.mailbox == x.mailbox
    then y.(active := false) else y
  }

  function Undefaulted(y: Template, x: Template): Template {
    if x.isDefault && y.kind == x.kind && y.isDefault && InScopeOf(y, x) then y.(isDefault := false) else y
  }

  function Displaced(y: Template, x: Template): Template {
    Undefaulted(Deactivated(Unforced(y, x), x), x)
  }

  /** The rows after the displacement, the saved row itself aside. */
  function Displace(t: Rows, id: nat, x: Template): Rows {
    map k | k in t :: if k == id then t[k] else Displaced(t[k], x)
  }

  /** A refused save is rolled back whole. */
  function Save(t: Rows, id: nat, x: Template): Rows {
    var c := Clean(x);
    if c.Ok? then Displace(t, id, x)[id := c.template] else t
  }

  class TemplateTable {
    var rows: Rows

    constructor ()
      ensures rows == map[]
    {
      rows := map[];
    }

    method TakeForced(id: nat, x: Template)
      modifies this
      ensures rows.Keys == old(rows).Keys
      ensures forall k :: k in rows ==> rows[k] == if k == id then old(rows)[k] else Unforced(old(rows)[k], x)
    {
      if x.forced {
        rows := map k | k in rows :: if k == id then rows[k] else Unforced(rows[k], x);
      }
    }

    method TakeAutoreply(id: nat, x: Template)
      modifies this
      ensures rows.Keys == old(rows).Keys
      ensures forall k :: k in rows ==> rows[k] == if k == id then old(rows)[k] else Deactivated(old(rows)[k], x)
    {
      if x.kind.Autoreply? && x.active && x.mailbox.Some? {
        rows := map k | k in rows :: if k == id then rows[k] else Deactivated(rows[k], x);
      }
    }

    method TakeDefault(id: nat, x: Template)
      modifies this
      ensures rows.Keys == old(rows).Keys
      ensures forall k :: k in rows ==> rows[k] == if k == id then old(rows)[k] else Undefaulted(old(rows)[k], x)
    {
      if x.isDefault {
        rows := map k | k in rows :: if k == id then rows[k] else Undefaulted(rows[k], x);
      }
    }

    /** The displacing updates run first, on the flags as given; validation comes with the
        final write and may still refuse the template or drop its flags. */
    method Store(id: nat, x: Template) returns (r: Result)
      modifies this
      ensures r == Clean(x)
      ensures rows == Save(old(rows), id, x)
    {
      var before := rows;
      TakeForced(id, x);
      TakeAutoreply(id, x);
      TakeDefault(id, x);
      assert rows == Displace(before, id, x);
      r := Clean(x);
      rows := if r.Ok? then rows[id := r.template] else before;
    }
  }

  // ------------------------------------------------------------------
  // The joint invariant
  // ------------------------------------------------------------------

  predicate SameScope(a: Template, b: Template) {
    a.mailbox == b.mailbox && a.maildomain == b.maildomain
  }

  predicate RowOk(x: Template) {
    && (x.mailbox.Some? <==> x.maildomain.None?)
    && (x.kind.Autoreply? ==> x.mailbox.Some? && !x.forced && !x.isDefault)
    && (!x.active ==> !x.forced && !x.isDefault)
  }

  /** Two rows that may not both exist under different ids. */
  predicate Clash(a: Template, b: Template) {
    && a.kind == b.kind && SameScope(a, b)
    && ((a.forced && b.forced) || (a.isDefault && b.isDefault) || (a.kind.Autoreply? && a.active && b.active))
  }

  ghost predicate Inv(t: Rows) {
    && (forall k :: k in t ==> RowOk(t[k]))
    && (forall j, k :: j in t && k in t && j != k ==> !Clash(t[j], t[k]))
  }

  lemma CleanedIsOk(x: Template)
    ensures Clean(x).Ok? ==>
              var y := Clean(x).template;
              && RowOk(y)
              && y == x.(forced := x.forced && x.active, isDefault := x.isDefault && x.active)
  {
  }

  lemma DisplacedIsOk(y: Template, x: Template)
    requires RowOk(y)
    ensures RowOk(Displaced(y, x))
  {
  }

  /** A displaced row no longer clashes with the one being saved. */
  lemma DisplacedDoesNotClash(y: Template, x: Template)
    requires RowOk(y) && Clean(x).Ok?
    ensures !Clash(Displaced(y, x), Clean(x).template) && !Clash(Clean(x).template, Displaced(y, x))
  {
  }

  lemma DisplacedOnlyClears(y: Template, x: Template)
    ensures var z := Displaced(y, x);
            && z.kind == y.kind && SameScope(z, y)
            && (z.forced ==> y.forced) && (z.isDefault ==> y.isDefault) && (z.active ==> y.active)
  {
  }

  /** Two rows that did not clash do not clash once displaced. */
  lemma DisplacedPair(y: Template, z: Template, x: Template)
    requires !Clash(y, z)
    ensures !Clash(Displaced(y, x), Displaced(z, x))
  {
    var y', z' := Displaced(y, x), Displaced(z, x);
    DisplacedOnlyClears(y, x);
    DisplacedOnlyClears(z, x);
    assert Clash(y', z') ==> Clash(y, z);
  }

  lemma SaveKeepsRows(t: Rows, id: nat, x: Template)
    requires Inv(t) && Clean(x).Ok?
    ensures forall k :: k in Save(t, id, x) ==> RowOk(Save(t, id, x)[k])
  {
    CleanedIsOk(x);
    forall k | k in Save(t, id, x) ensures RowOk(Save(t, id, x)[k]) {
      if k != id {
        DisplacedIsOk(t[k], x);
      }
    }
  }

  lemma SaveKeeps(t: Rows, id: nat, x: Template)
    requires Inv(t)
    ensures Inv(Save(t, id, x))
  {
    if Clean(x).Ok? {
      var t' := Save(t, id, x);
      SaveKeepsRows(t, id, x);
      forall j, k | j in t' && k in t' && j != k ensures !Clash(t'[j], t'[k]) {
        if j == id {
          DisplacedDoesNotClash(t[k], x);
        } else if k == id {
          DisplacedDoesNotClash(t[j], x);
        } else {
          DisplacedPair(t[j], t[k], x);
        }
      }
    }
  }

  datatype Op = Put(id: nat, template: Template) | Delete(id: nat)

  function Apply(t: Rows, op: Op): Rows {
    match op
    case Put(id, x) => Save(t, id, x)
    case Delete(id) => t - {id}
  }

  function Run(t: Rows, ops: seq<Op>): Rows
    decreases |ops|
  {
    if ops == [] then t else Run(Apply(t, ops[0]), ops[1..])
  }

  /** Every run of saves, accepted or refused, and deletes keeps: exactly one owner; at
      most one forced and one default template per scope and type; at most one active
      autoreply per mailbox; autoreplies scoped to a mailbox and never forced or default;
      nothing inactive forced or default. */
  lemma {:induction false} EveryRunKeeps(t: Rows, ops: seq<Op>)
    requires Inv(t)
    ensures Inv(Run(t, ops))
    decreases |ops|
  {
    if ops != [] {
      if ops[0].Put? {
        SaveKeeps(t, ops[0].id, ops[0].template);
      }
      EveryRunKeeps(Apply(t, ops[0]), ops[1..]);
    }
  }

  /** A row of another scope or type survives any save untouched; a row of the same one
      loses at most a flag the saved template claims. */
  lemma SaveTouchesOnlyItsScope(t: Rows, id: nat, x: Template, k: nat)
    requires Inv(t) && k in t && k != id
    ensures var y, y' := t[k], Save(t, id, x)[k];
            if Clean(x).Ok? && y.kind == x.kind && SameScope(y, x) then
              y' == y.(forced := y.forced && !x.forced,
                       isDefault := y.isDefault && !x.isDefault,
                       active := y.active && !(x.kind.Autoreply? && x.active))
            else y' == y
  {
  }

  /** A template saved inactive is stored without its forced flag, but only after that
      flag has displaced the forced template of its scope, which then has none. */
  lemma InactiveForcedSaveDisplaces(t: Rows, id: nat, x: Template)
    requires Inv(t) && Clean(x).Ok? && x.forced && !x.active
    ensures var t' := Save(t, id, x);
            forall k :: k in t' && t'[k].kind == x.kind && SameScope(t'[k], x) ==> !t'[k].forced
  {
  }

  // ------------------------------------------------------------------
  // The forced signature
  // ------------------------------------------------------------------

  /** The rows the forced-signature query selects for a mailbox of a domain. */
  predicate Candidate(x: Template, mailbox: nat, domain: nat) {
    && (x.maildomain == Some(domain) || x.mailbox == Some(mailbox))
    && x.kind.Signature? && x.forced && x.active
  }

  /** A row the query may return first: domain rows come before mailbox rows, and the
      database is free among equals. */
  ghost predicate MayComeFirst(t: Rows, mailbox: nat, domain: nat, k: nat) {
    && k in t && Candidate(t[k], mailbox, domain)
    && (t[k].maildomain.None? ==>
          forall j :: j in t && Candidate(t[j], mailbox, domain) ==> t[j].maildomain.None?)
  }

  /** After any run from an empty table the forced signature is determined: whenever one
      is selected, exactly one row can come first; and it is the domain's if the domain
      forces one. */
  lemma ForcedSignatureIsDetermined(ops: seq<Op>, mailbox: nat, domain: nat)
    ensures var t := Run(map[], ops);
            && (forall j, k :: MayComeFirst(t, mailbox, domain, j) && MayComeFirst(t, mailbox, domain, k) ==> j == k)
            && (forall k :: k in t && Candidate(t[k], mailbox, domain) && t[k].maildomain.Some?
                  ==> MayComeFirst(t, mailbox, domain, k))
            && (forall k :: k in t && Candidate(t[k], mailbox, domain)
                  ==> exists j :: MayComeFirst(t, mailbox, domain, j))
  {
    var t := Run(map[], ops);
    EveryRunKeeps(map[], ops);
    forall j, k | MayComeFirst(t, mailbox, domain, j) && MayComeFirst(t, mailbox, domain, k) ensures j == k {
      assert Clash(t[j], t[k]);
    }
    forall k | k in t && Candidate(t[k], mailbox, domain) ensures exists j :: MayComeFirst(t, mailbox, domain, j) {
      if forall j :: j in t && Candidate(t[j], mailbox, domain) ==> t[j].maildomain.None? {
        assert MayComeFirst(t, mailbox, domain, k);
      } else {
        var j :| j in t && Candidate(t[j], mailbox, domain) && t[j].maildomain.Some?;
        assert MayComeFirst(t, mailbox, domain, j);
      }
    }
  }

  /** `get_validated_signature`, with `forced` the row the query came up with, if any:
      the forced one, else the requested one if it is an active signature of the mailbox
      or its domain. */
  function ValidatedSignature(
    t: Rows, mailbox: nat, domain: nat, requested: Option<nat>, forced: Option<nat>): Option<nat>
  {
    if forced.Some? then forced
    else if requested.None? then None
    else if requested.value !in t then None
    else
      var x := t[requested.value];
      if !x.kind.Signature? || !x.active then None
      else if x.mailbox == Some(mailbox) || x.maildomain == Some(domain) then requested
      else None
  }

  ghost predicate QueryResult(t: Rows, mailbox: nat, domain: nat, forced: Option<nat>) {
    match forced
    case Some(k) => MayComeFirst(t, mailbox, domain, k)
    case None => forall k :: k in t ==> !Candidate(t[k], mailbox, domain)
  }

  /** Whatever a client asks for, the answer is an active signature of the mailbox or its
      domain; no other request can replace a forced one; and two readers of one table get
      the same answer. */
  lemma SignatureChoiceIsSafe(
    ops: seq<Op>, mailbox: nat, domain: nat, requested: Option<nat>, other: Option<nat>,
    forced: Option<nat>, forced': Option<nat>)
    requires var t := Run(map[], ops);
             QueryResult(t, mailbox, domain, forced) && QueryResult(t, mailbox, domain, forced')
    ensures var t := Run(map[], ops);
            var r := ValidatedSignature(t, mailbox, domain, requested, forced);
            && (r.Some? ==>
                  && r.value in t && t[r.value].kind.Signature? && t[r.value].active
                  && (t[r.value].mailbox == Some(mailbox) || t[r.value].maildomain == Some(domain)))
            && r == ValidatedSignature(t, mailbox, domain, requested, forced')
            && (forced.Some? ==> r == ValidatedSignature(t, mailbox, domain, other, forced'))
  {
    ForcedSignatureIsDetermined(ops, mailbox, domain);
  }
}
