/** The whole loop of the threading headers: emitted by the composer, read by the parser as
    JMAP lists, and composed again from those. */
module ThreadingLoop {
  import opened Text
  import opened Wrappers
  import opened MessageIds
  import opened References

  /** The list the parser makes of a header, empty when it makes none. */
  function AsRead(header: string): seq<Entry> {
    var ids := JmapMessageIds(header);
    if ids.None? then [] else AsEntries(ids.value)
  }

  /** The threading input of a message that is composed again from what was read. */
  function Reread(out: Output): Input {
    Input("", AsRead(out.inReplyTo), AsRead(out.references), "", "")
  }

  // ------------------------------------------------------------------
  // Ids without a paren survive the loop
  // ------------------------------------------------------------------

  /** What stands between the brackets of an id. */
  function Body(id: string): string {
    if |id| >= 2 then id[1..|id| - 1] else ""
  }

  /** The ids without their brackets, as the parser reads them. */
  function Bodies(ids: seq<string>): (r: seq<string>)
    ensures |r| == |ids|
  {
    if ids == [] then [] else [Body(ids[0])] + Bodies(ids[1..])
  }

  lemma BodyIsWritable(id: string)
    requires IsValid(id)
    ensures Writable(Body(id)) && "<" + Body(id) + ">" == id
  {
    var body := Body(id);
    forall j | 0 <= j < |body| ensures !IsSpace(body[j]) && body[j] !in {'<', '>'} && !IsStripped(body[j]) {
      assert body[j] == id[j + 1];
    }
  }

  lemma {:induction false} BodyAt(ids: seq<string>, i: nat)
    requires i < |ids|
    ensures Bodies(ids)[i] == Body(ids[i])
  {
    if i > 0 {
      BodyAt(ids[1..], i - 1);
    }
  }

  lemma BodiesAreWritable(ids: seq<string>)
    requires AllValid(ids)
    ensures AllWritable(Bodies(ids)) && Bracketed(Bodies(ids)) == ids
  {
    forall i | 0 <= i < |ids| ensures Writable(Bodies(ids)[i]) && Bracketed(Bodies(ids))[i] == ids[i] {
      BodyAt(ids, i);
      BodyIsWritable(ids[i]);
      BracketedAt(Bodies(ids), i);
    }
  }

  lemma BodiesLackParen(ids: seq<string>)
    requires NoParen(ids)
    ensures NoParen(Bodies(ids))
  {
    forall i | 0 <= i < |ids| ensures Lacks(Bodies(ids)[i], {'('}) {
      BodyAt(ids, i);
      assert Lacks(ids[i], {'('});
    }
  }

  /** A written chain is read as its ids without the brackets. */
  lemma ChainIsReadAsBodies(ids: seq<string>)
    requires AllValid(ids) && NoParen(ids)
    ensures AsRead(Join(ids, " ")) == AsEntries(Bodies(ids))
  {
    BodiesAreWritable(ids);
    BodiesLackParen(ids);
    ChainReadsBack(Bodies(ids));
  }

  lemma BareIsBracketed(body: string)
    requires Writable(body)
    ensures Sanitize(body) == body && EnsureAngleBrackets(body) == "<" + body + ">"
  {
    assert body[0] !in {'<', '>'} && body[|body| - 1] !in {'<', '>'};
    assert !StartsWith(body, '<');
    assert ("<" + body)[|body|] == body[|body| - 1];
  }

  lemma BodyIsChecked(id: string)
    requires IsValid(id)
    ensures Checked(Body(id)) == [id]
  {
    BodyIsWritable(id);
    BareIsBracketed(Body(id));
  }

  lemma {:induction false} StringsOfBare(bodies: seq<string>)
    requires AllWritable(bodies)
    ensures Strings(AsEntries(bodies)) == bodies
  {
    if bodies != [] {
      assert Writable(bodies[0]);
      StripFixed(bodies[0]);
      assert AsEntries(bodies)[1..] == AsEntries(bodies[1..]);
      StringsOfBare(bodies[1..]);
    }
  }

  lemma BodiesAreChecked(ids: seq<string>)
    requires AllValid(ids)
    ensures ValidIds(Strings(AsEntries(Bodies(ids)))) == ids
  {
    BodiesAreWritable(ids);
    StringsOfBare(Bodies(ids));
    forall i | 0 <= i < |ids| ensures Checked(Bodies(ids)[i]) == [ids[i]] {
      BodyAt(ids, i);
      BodyIsChecked(ids[i]);
    }
    FlatMapSingles(Checked, Bodies(ids), ids);
  }

  lemma NothingReadIsNothing(ids: seq<string>)
    ensures AsEntries(Bodies(ids)) == [] <==> ids == []
  {
  }

  lemma LoopKeepsParenFree(m: Input)
    requires NoParen(InReplyToIds(m)) && NoParen(ChainIds(m))
    ensures ThreadingHeaders(Reread(ThreadingHeaders(m))) == ThreadingHeaders(m)
  {
    var parents, chain := InReplyToIds(m), ChainIds(m);
    var again := Reread(ThreadingHeaders(m));
    ChainIdsAreValid(m);
    ChainEndsWithTheParent(m);
    ChainIsReadAsBodies(parents);
    ChainIsReadAsBodies(chain);
    BodiesAreChecked(parents);
    BodiesAreChecked(chain);
    NothingReadIsNothing(parents);
    NothingReadIsNothing(chain);
    assert Tokens("", "") == [];
    assert InReplyToIds(again) == parents && ReferenceIds(again) == chain;
  }

  // ------------------------------------------------------------------
  // Ids with a paren do not
  // ------------------------------------------------------------------

  ghost predicate NoParenEntries(entries: seq<Entry>) {
    forall i :: 0 <= i < |entries| && entries[i].Id? ==> Lacks(entries[i].value, {'('})
  }

  lemma {:induction false} EntriesLackParen(ids: seq<string>)
    requires NoParen(ids)
    ensures NoParenEntries(AsEntries(ids))
  {
    if ids != [] {
      EntriesLackParen(ids[1..]);
    }
  }

  /** The parser yields no id with an opening paren. */
  lemma ReadLacksParen(header: string)
    ensures NoParenEntries(AsRead(header))
  {
    var ids := JmapMessageIds(header);
    if ids.Some? {
      StripCfwsIsIdempotent(header);
      WordsLack(StripCfws(header), '(');
      EntriesLackParen(ids.value);
    }
  }

  lemma {:induction false} SanitizeLacks(s: string, c: char)
    requires Lacks(s, {c})
    ensures Lacks(Sanitize(s), {c})
  {
    if s != "" {
      SanitizeLacks(s[1..], c);
    }
  }

  lemma CheckedLacksParen(value: string)
    requires Lacks(value, {'('})
    ensures NoParen(Checked(value))
  {
    SanitizeLacks(value, '(');
  }

  lemma {:induction false} ValidIdsLackParen(entries: seq<Entry>)
    requires NoParenEntries(entries)
    ensures NoParen(ValidIds(Strings(entries)))
  {
    if entries != [] {
      var e, rest := entries[0], entries[1..];
      ValidIdsLackParen(rest);
      if e.Id? && Strip(e.value) != "" {
        CheckedLacksParen(e.value);
        FlatMapConcat(Checked, [e.value], Strings(rest));
        FlatMapOne(Checked, e.value);
        assert ValidIds(Strings(entries)) == Checked(e.value) + ValidIds(Strings(rest));
      } else {
        assert Strings(entries) == Strings(rest);
      }
    }
  }

  lemma RereadLacksParen(out: Output)
    ensures NoParen(InReplyToIds(Reread(out))) && NoParen(ChainIds(Reread(out)))
  {
    ReadLacksParen(out.inReplyTo);
    ReadLacksParen(out.references);
    ValidIdsLackParen(AsRead(out.inReplyTo));
    ValidIdsLackParen(AsRead(out.references));
    assert Tokens("", "") == [];
  }

  lemma {:induction false} PartsLack(ids: seq<string>, c: char)
    requires Lacks(Join(ids, " "), {c})
    ensures forall i :: 0 <= i < |ids| ==> Lacks(ids[i], {c})
  {
    if |ids| > 1 {
      var s, rest := Join(ids, " "), Join(ids[1..], " ");
      assert s == ids[0] + " " + rest;
      assert s[..|ids[0]|] == ids[0] && s[|ids[0]| + 1..] == rest;
      PartsLack(ids[1..], c);
    }
  }

  lemma ParenSurvivesNot(ids: seq<string>, again: seq<string>)
    requires NoParen(again) && Join(again, " ") == Join(ids, " ")
    ensures NoParen(ids)
  {
    JoinLacks(again, '(');
    PartsLack(ids, '(');
  }

  /** Emitting the headers, reading them as the parser does and composing from the lists read
      emits the same headers, if and only if no emitted id holds an opening paren. */
  lemma LoopIsAFixedPointWithoutParens(m: Input)
    ensures ThreadingHeaders(Reread(ThreadingHeaders(m))) == ThreadingHeaders(m)
       <==> NoParen(InReplyToIds(m)) && NoParen(ChainIds(m))
  {
    var again := Reread(ThreadingHeaders(m));
    if ThreadingHeaders(again) == ThreadingHeaders(m) {
      RereadLacksParen(ThreadingHeaders(m));
      ParenSurvivesNot(InReplyToIds(m), InReplyToIds(again));
      ParenSurvivesNot(ChainIds(m), ChainIds(again));
    }
    if NoParen(InReplyToIds(m)) && NoParen(ChainIds(m)) {
      LoopKeepsParenFree(m);
    }
  }

  lemma {:induction false} OctetsAreFew(s: string)
    ensures Utf8Length(s) <= 4 * |s|
  {
    if s != "" {
      OctetsAreFew(s[1..]);
    }
  }

  const PAREN_ID := "<a(@b>"

  lemma ParenIdIsValid()
    ensures IsValid(PAREN_ID) && PAREN_ID[2] == '('
  {
    OctetsAreFew(PAREN_ID);
    assert PAREN_ID[3] == '@' && |PAREN_ID| == 6;
  }

  lemma NotParenFree(id: string, i: nat)
    requires i < |id| && id[i] == '('
    ensures !NoParen([id])
  {
    assert !Lacks([id][0], {'('});
  }

  /** There are such ids: a reply to "<a(@b>" comes out of the loop with other headers. */
  lemma ParenIdIsLost()
    ensures var m := Input(PAREN_ID, [], [], "", "");
            InReplyToIds(m) == [PAREN_ID] && ThreadingHeaders(Reread(ThreadingHeaders(m))) != ThreadingHeaders(m)
  {
    var m := Input(PAREN_ID, [], [], "", "");
    ParenIdIsValid();
    ValidateIsIdempotent(PAREN_ID);
    NotParenFree(PAREN_ID, 2);
    LoopIsAFixedPointWithoutParens(m);
  }
}
