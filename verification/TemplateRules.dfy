/** The rules of the template table and of the signature choice, row by row. */
module TemplateRules {
  import opened Wrappers
  import opened Templates

  /** Exactly which templates are accepted, the first reason why another is not, and what is
      stored: the flags of an inactive one go.  A refused save changes nothing. */
  lemma SaveIsAcceptedExactly(t: Rows, id: nat, x: Template)
    ensures Clean(x) ==
              if x.mailbox == None && x.maildomain == None then Err(NoOwner)
              else if x.mailbox != None && x.maildomain != None then Err(TwoOwners)
              else if x.kind == Autoreply && x.mailbox == None then Err(AutoreplyNotScoped)
              else if x.kind == Autoreply && x.active && (x.forced || x.isDefault) then Err(AutoreplyFlagged)
              else if x.kind == Autoreply && !x.metadataOk then Err(BadMetadata)
              else Ok(x.(forced := x.forced && x.active, isDefault := x.isDefault && x.active))
    ensures Clean(x).Err? ==> Save(t, id, x) == t
    ensures Clean(x).Ok? ==> Save(t, id, x).Keys == t.Keys + {id} && Save(t, id, x)[id] == Clean(x).template
  {
  }

  /** What a save does to another row of a table whose rows have one owner each: it takes the
      flags it claims from rows of its type and its owner, and an active autoreply ends the
      other autoreply of its mailbox. */
  lemma SaveTakesFlags(t: Rows, id: nat, x: Template, k: nat)
    requires forall j :: j in t ==> (t[j].mailbox == None <==> t[j].maildomain != None)
    requires k in t && k != id
    ensures var y, related := t[k], t[k].kind == x.kind && t[k].mailbox == x.mailbox && t[k].maildomain == x.maildomain;
            Save(t, id, x).Keys >= t.Keys &&
            Save(t, id, x)[k] ==
              if Clean(x).Err? || !related then y
              else y.(forced := y.forced && !x.forced,
                      isDefault := y.isDefault && !x.isDefault,
                      active := y.active && !(x.kind == Autoreply && x.active))
  {
  }

  /** One more save or delete at the end of a run. */
  lemma {:induction false} RunGoesOn(t: Rows, ops: seq<Op>, op: Op)
    ensures Run(t, ops + [op]) ==
              match op
              case Put(id, x) => Save(Run(t, ops), id, x)
              case Delete(id) => Run(t, ops) - {id}
    decreases |ops|
  {
    if ops == [] {
      assert ([] + [op])[1..] == [];
    } else {
      assert (ops + [op])[0] == ops[0] && (ops + [op])[1..] == ops[1..] + [op];
      RunGoesOn(Apply(t, ops[0]), ops[1..], op);
    }
  }

  /** The table after every run from an empty one. */
  lemma TableIsRightAfterEveryRun(ops: seq<Op>)
    ensures var t := Run(map[], ops);
            && (forall k :: k in t ==>
                  && (t[k].mailbox == None <==> t[k].maildomain != None)
                  && (t[k].kind == Autoreply ==> t[k].mailbox != None && !t[k].forced && !t[k].isDefault)
                  && (!t[k].active ==> !t[k].forced && !t[k].isDefault))
            && forall j, k ::
                 (&& j in t && k in t && j != k && t[j].kind == t[k].kind
                  && t[j].mailbox == t[k].mailbox && t[j].maildomain == t[k].maildomain) ==>
                   && !(t[j].forced && t[k].forced) && !(t[j].isDefault && t[k].isDefault)
                   && !(t[j].kind == Autoreply && t[j].active && t[k].active)
  {
    EveryRunKeeps(map[], ops);
    var t := Run(map[], ops);
    forall j, k | j in t && k in t && j != k ensures !Clash(t[j], t[k]) {
    }
  }

  // ------------------------------------------------------------------
  // The signature a mailbox gets
  // ------------------------------------------------------------------

  predicate IsForcedSignature(x: Template) {
    x.kind == Signature && x.forced && x.active
  }

  /** Exactly the choice: the forced signature of the domain if there is one, else that of the
      mailbox, else what was asked for if it is an active signature of either, else none. */
  lemma SignatureIsChosen(ops: seq<Op>, mailbox: nat, domain: nat, requested: Option<nat>, forced: Option<nat>)
    requires QueryResult(Run(map[], ops), mailbox, domain, forced)
    ensures var t := Run(map[], ops);
            var r := ValidatedSignature(t, mailbox, domain, requested, forced);
            if exists k :: k in t && IsForcedSignature(t[k]) && t[k].maildomain == Some(domain)
            then r.Some? && r.value in t && IsForcedSignature(t[r.value]) && t[r.value].maildomain == Some(domain)
            else if exists k :: k in t && IsForcedSignature(t[k]) && t[k].mailbox == Some(mailbox)
            then r.Some? && r.value in t && IsForcedSignature(t[r.value]) && t[r.value].mailbox == Some(mailbox)
            else if && requested.Some? && requested.value in t && t[requested.value].kind == Signature
                    && t[requested.value].active
                    && (t[requested.value].mailbox == Some(mailbox) || t[requested.value].maildomain == Some(domain))
            then r == requested
            else r == None
  {
    var t := Run(map[], ops);
    TableIsRightAfterEveryRun(ops);
    if k :| k in t && IsForcedSignature(t[k]) && t[k].maildomain == Some(domain) {
      assert Candidate(t[k], mailbox, domain);
    } else if k :| k in t && IsForcedSignature(t[k]) && t[k].mailbox == Some(mailbox) {
      assert Candidate(t[k], mailbox, domain);
    }
  }

  lemma SomeCandidateComesFirst(t: Rows, mailbox: nat, domain: nat, k: nat)
    requires k in t && Candidate(t[k], mailbox, domain)
    ensures exists j :: MayComeFirst(t, mailbox, domain, j)
  {
    if j :| j in t && Candidate(t[j], mailbox, domain) && t[j].maildomain.Some? {
      assert MayComeFirst(t, mailbox, domain, j);
    } else {
      assert MayComeFirst(t, mailbox, domain, k);
    }
  }

  /** The query for the forced signature has a result on every table. */
  lemma QueryHasAResult(t: Rows, mailbox: nat, domain: nat)
    ensures exists forced :: QueryResult(t, mailbox, domain, forced)
  {
    if k :| k in t && Candidate(t[k], mailbox, domain) {
      SomeCandidateComesFirst(t, mailbox, domain, k);
      var j :| MayComeFirst(t, mailbox, domain, j);
      assert QueryResult(t, mailbox, domain, Some(j));
    } else {
      assert QueryResult(t, mailbox, domain, None);
    }
  }
}
