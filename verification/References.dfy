/** The threading headers: how In-Reply-To and References are validated and emitted. */
module References {
  import opened Text
  import opened Wrappers
  import opened MessageIds

  // ------------------------------------------------------------------
  // One id
  // ------------------------------------------------------------------

  const MAX_OCTETS := 900

  /** Octets of one character in UTF-8. */
  function Octets(c: char): nat {
    if c < '\U{80}' then 1 else if c < '\U{800}' then 2 else if c < '\U{10000}' then 3 else 4
  }

  function Utf8Length(s: string): nat {
    if s == "" then 0 else Octets(s[0]) + Utf8Length(s[1..])
  }

  function EnsureAngleBrackets(value: string): string {
    var left := if StartsWith(value, '<') then value else "<" + value;
    if EndsWith(left, '>') then left else left + ">"
  }

  /** `<local@domain>`: no white space or nested bracket, and an `@` with something on
      both sides of it. */
  predicate IsMsgIdShape(s: string) {
    && |s| >= 2 && s[0] == '<' && s[|s| - 1] == '>'
    && (forall j :: 0 < j < |s| - 1 ==> !IsSpace(s[j]) && s[j] != '<' && s[j] != '>')
    && exists k :: 1 < k < |s| - 2 && s[k] == '@'
  }

  /** The normalised id, or `None` when the value is rejected. */
  function ValidateMsgId(value: string): Option<string> {
    var cleaned := EnsureAngleBrackets(Sanitize(value));
    if Utf8Length(cleaned) <= MAX_OCTETS && IsMsgIdShape(cleaned) then Some(cleaned) else None
  }

  /** What validation lets through. */
  predicate IsValid(id: string) {
    Clean(id) && Utf8Length(id) <= MAX_OCTETS && IsMsgIdShape(id)
  }

  predicate AllValid(ids: seq<string>) {
    forall i :: 0 <= i < |ids| ==> IsValid(ids[i])
  }

  lemma BracketsStay(id: string)
    requires IsMsgIdShape(id)
    ensures EnsureAngleBrackets(id) == id
  {
  }

  lemma BracketsAreClean(s: string)
    requires Clean(s)
    ensures Clean(EnsureAngleBrackets(s))
  {
  }

  /** Validation yields well-formed ids and leaves those alone. */
  lemma ValidateIsIdempotent(value: string)
    ensures ValidateMsgId(value).Some? ==> IsValid(ValidateMsgId(value).value)
    ensures IsValid(value) ==> ValidateMsgId(value) == Some(value)
  {
    BracketsAreClean(Sanitize(value));
    if IsValid(value) {
      BracketsStay(value);
    }
  }

  // ------------------------------------------------------------------
  // Lists and wire-form chains
  // ------------------------------------------------------------------

  function Checked(value: string): seq<string> {
    var id := ValidateMsgId(value);
    if id.Some? then [id.value] else []
  }

  /** The valid ids among `values`, in order. */
  function ValidIds(values: seq<string>): seq<string> {
    FlatMap(Checked, values)
  }

  lemma CheckedIsValid(value: string)
    ensures AllValid(Checked(value))
  {
    ValidateIsIdempotent(value);
  }

  lemma {:induction false} ValidIdsAreValid(values: seq<string>)
    ensures AllValid(ValidIds(values))
  {
    if values != [] {
      CheckedIsValid(values[0]);
      ValidIdsAreValid(values[1..]);
      assert ValidIds(values) == Checked(values[0]) + ValidIds(values[1..]);
    }
  }

  /** The usable strings of the caller's list: anything that is not blank. */
  function Strings(entries: seq<Entry>): seq<string> {
    if entries == [] then []
    else
      var e := entries[0];
      (if e.Id? && Strip(e.value) != "" then [e.value] else []) + Strings(entries[1..])
  }

  /** The `<...>` tokens of a chain, brackets included.  `open` is the token begun so
      far, "" when none is. */
  function Tokens(s: string, open: string): seq<string> {
    if s == "" then []
    else if s[0] == '<' then Tokens(s[1..], "<")
    else if s[0] == '>' then (if open != "" then [open + ">"] else []) + Tokens(s[1..], "")
    else Tokens(s[1..], if open != "" then open + [s[0]] else "")
  }

  lemma {:induction false} StringsSnoc(entries: seq<Entry>, e: Entry)
    ensures Strings(entries + [e])
         == Strings(entries) + (if e.Id? && Strip(e.value) != "" then [e.value] else [])
  {
    if entries == [] {
      assert [e][1..] == [];
    } else {
      assert (entries + [e])[1..] == entries[1..] + [e];
      StringsSnoc(entries[1..], e);
    }
  }

  /** The ids one entry of the list contributes: one or none. */
  function EntryIds(entry: Entry): seq<string> {
    if entry.Id? && Strip(entry.value) != "" then Checked(entry.value) else []
  }

  lemma EntryAdds(entries: seq<Entry>, entry: Entry)
    ensures ValidIds(Strings(entries + [entry])) == ValidIds(Strings(entries)) + EntryIds(entry)
  {
    StringsSnoc(entries, entry);
    if entry.Id? && Strip(entry.value) != "" {
      FlatMapConcat(Checked, Strings(entries), [entry.value]);
      FlatMapOne(Checked, entry.value);
    } else {
      assert Strings(entries) + [] == Strings(entries);
    }
  }

  method ValidateMsgidList(entries: seq<Entry>) returns (r: string)
    ensures r == Join(ValidIds(Strings(entries)), " ")
  {
    var validated: seq<string> := [];
    var i := 0;
    while i < |entries|
      invariant 0 <= i <= |entries|
      invariant validated == ValidIds(Strings(entries[..i]))
    {
      var entry := entries[i];
      assert entries[..i + 1] == entries[..i] + [entry];
      EntryAdds(entries[..i], entry);
      if entry.Id? && Strip(entry.value) != "" {
        validated := validated + Checked(entry.value);
      }
      i := i + 1;
    }
    assert entries[..i] == entries;
    return Join(validated, " ");
  }

  /** The loop over the candidates; `check` yields the id of a good one. */
  method Collect(check: string -> seq<string>, candidates: seq<string>) returns (validated: seq<string>)
    ensures validated == FlatMap(check, candidates)
  {
    validated := [];
    var i := 0;
    while i < |candidates|
      invariant 0 <= i <= |candidates|
      invariant validated == FlatMap(check, candidates[..i])
    {
      assert candidates[..i + 1] == candidates[..i] + [candidates[i]];
      FlatMapConcat(check, candidates[..i], [candidates[i]]);
      FlatMapOne(check, candidates[i]);
      validated := validated + check(candidates[i]);
      i := i + 1;
    }
    assert candidates[..i] == candidates;
  }

  /** `append` is skipped when the chain already ends with it. */
  method ValidateReferencesChain(raw: string, append: string) returns (r: string)
    ensures r == Join(Appended(ValidIds(Tokens(raw, "")), append), " ")
  {
    var validated := Collect(Checked, Tokens(raw, ""));
    if append != "" && (validated == [] || validated[|validated| - 1] != append) {
      validated := validated + [append];
    }
    return Join(validated, " ");
  }

  function Appended(ids: seq<string>, tail: string): seq<string> {
    if tail != "" && (ids == [] || ids[|ids| - 1] != tail) then ids + [tail] else ids
  }

  // ------------------------------------------------------------------
  // The two headers
  // ------------------------------------------------------------------

  /** The threading input of a message: the `in_reply_to` parameter, the two JMAP lists
      and the two wire-form headers, each empty when absent. */
  datatype Input = Input(
    parameter: string,
    inReplyTo: seq<Entry>,
    references: seq<Entry>,
    inReplyToHeader: string,
    referencesHeader: string)

  /** The two header values; "" means the header is not emitted. */
  datatype Output = Output(inReplyTo: string, references: string)

  function InReplyToIds(m: Input): seq<string> {
    if m.parameter != "" then Checked(m.parameter)
    else if m.inReplyTo != [] then ValidIds(Strings(m.inReplyTo))
    else ValidIds(Tokens(m.inReplyToHeader, ""))
  }

  function ReferenceIds(m: Input): seq<string> {
    if m.references != [] then ValidIds(Strings(m.references))
    else ValidIds(Tokens(m.referencesHeader, ""))
  }

  function Tail(ids: seq<string>): string {
    if ids == [] then "" else ids[|ids| - 1]
  }

  /** The emitted chain, as a list of ids. */
  function ChainIds(m: Input): seq<string> {
    Appended(ReferenceIds(m), Tail(InReplyToIds(m)))
  }

  function ThreadingHeaders(m: Input): Output {
    Output(Join(InReplyToIds(m), " "), Join(ChainIds(m), " "))
  }

  method InReplyToChain(m: Input) returns (chain: string)
    ensures chain == Join(InReplyToIds(m), " ")
  {
    chain := "";
    if m.parameter != "" {
      var id := ValidateMsgId(m.parameter);
      if id.Some? {
        chain := id.value;
      }
    } else if m.inReplyTo != [] {
      chain := ValidateMsgidList(m.inReplyTo);
    } else if m.inReplyToHeader != "" {
      chain := ValidateReferencesChain(m.inReplyToHeader, "");
    }
  }

  method ReferencesChain(m: Input) returns (chain: string)
    ensures chain == Join(ReferenceIds(m), " ")
  {
    if m.references != [] {
      chain := ValidateMsgidList(m.references);
    } else {
      chain := ValidateReferencesChain(m.referencesHeader, "");
    }
  }

  /** The parent's id is appended to the text of the chain unless it is its last word. */
  method AppendParent(
    inReplyToChain: string, referencesChain: string, ghost parents: seq<string>, ghost refs: seq<string>)
    returns (chain: string)
    requires AllValid(parents) && AllValid(refs)
    requires inReplyToChain == Join(parents, " ") && referencesChain == Join(refs, " ")
    ensures chain == Join(Appended(refs, Tail(parents)), " ")
  {
    ChainText(parents);
    ChainText(refs);
    if inReplyToChain == "" {
      return referencesChain;
    }
    var tail := Tail(Words(inReplyToChain));
    TailIsValid(parents);
    if referencesChain != "" && Tail(Words(referencesChain)) == tail {
      return referencesChain;
    }
    AppendText(refs, tail);
    return Strip(referencesChain + " " + tail);
  }

  /** The composer works on the joined strings: it splits them again to find the tail,
      appends to the text and sanitizes the result. */
  method SetThreadingHeaders(m: Input) returns (out: Output)
    ensures out == ThreadingHeaders(m)
  {
    var inReplyToChain := InReplyToChain(m);
    var referencesChain := ReferencesChain(m);
    ChainIdsAreValid(m);
    referencesChain := AppendParent(inReplyToChain, referencesChain, InReplyToIds(m), ReferenceIds(m));
    ChainText(InReplyToIds(m));
    ChainText(ChainIds(m));
    return Output(Sanitize(inReplyToChain), Sanitize(referencesChain));
  }

  // ------------------------------------------------------------------
  // Chains as text
  // ------------------------------------------------------------------

  lemma ValidIdsAreWords(ids: seq<string>)
    requires AllValid(ids)
    ensures AreWords(ids)
  {
    forall i | 0 <= i < |ids| ensures ids[i] != "" && NoSpace(ids[i]) {
      var id := ids[i];
      assert IsValid(id);
      forall j | 0 <= j < |id| ensures !IsSpace(id[j]) {
      }
    }
  }

  lemma {:induction false} JoinIsClean(ids: seq<string>)
    requires forall i :: 0 <= i < |ids| ==> Clean(ids[i])
    ensures Clean(Join(ids, " "))
  {
    if |ids| > 1 {
      JoinIsClean(ids[1..]);
    }
  }

  /** The text of a chain of valid ids: splitting it gives the ids, it is empty only for
      no ids, and neither sanitizing nor stripping changes it. */
  lemma ChainText(ids: seq<string>)
    requires AllValid(ids)
    ensures Words(Join(ids, " ")) == ids
    ensures Join(ids, " ") == "" <==> ids == []
    ensures Sanitize(Join(ids, " ")) == Join(ids, " ")
    ensures Strip(Join(ids, " ")) == Join(ids, " ")
  {
    ValidIdsAreWords(ids);
    WordsOfJoin(ids);
    JoinIsCollapsed(ids);
    StripFixed(Join(ids, " "));
    forall i | 0 <= i < |ids| ensures Clean(ids[i]) {
      assert IsValid(ids[i]);
    }
    JoinIsClean(ids);
  }

  lemma {:induction false} JoinSnoc(ids: seq<string>, tail: string)
    requires ids != []
    ensures Join(ids + [tail], " ") == Join(ids, " ") + " " + tail
  {
    if |ids| == 1 {
      assert (ids + [tail])[1..] == [tail];
    } else {
      assert (ids + [tail])[1..] == ids[1..] + [tail];
      JoinSnoc(ids[1..], tail);
    }
  }

  lemma AppendText(ids: seq<string>, tail: string)
    requires AllValid(ids) && IsValid(tail)
    ensures Strip(Join(ids, " ") + " " + tail) == Join(ids + [tail], " ")
  {
    ChainText(ids + [tail]);
    if ids == [] {
      AppendToNothing(tail);
      assert ids + [tail] == [tail];
    } else {
      JoinSnoc(ids, tail);
    }
  }

  lemma AppendToNothing(tail: string)
    requires IsValid(tail)
    ensures Strip("" + " " + tail) == tail
  {
    assert !IsSpace('<') && !IsSpace('>');
    assert Trimmed(tail);
    assert "" + " " + tail == " " + tail;
    StripLeadingBlank(tail);
  }

  lemma InReplyToIdsAreValid(m: Input)
    ensures AllValid(InReplyToIds(m))
  {
    CheckedIsValid(m.parameter);
    ValidIdsAreValid(Strings(m.inReplyTo));
    ValidIdsAreValid(Tokens(m.inReplyToHeader, ""));
  }

  lemma ReferenceIdsAreValid(m: Input)
    ensures AllValid(ReferenceIds(m))
  {
    ValidIdsAreValid(Strings(m.references));
    ValidIdsAreValid(Tokens(m.referencesHeader, ""));
  }

  lemma AppendedIsValid(ids: seq<string>, tail: string)
    requires AllValid(ids) && (tail != "" ==> IsValid(tail))
    ensures AllValid(Appended(ids, tail))
  {
  }

  lemma ChainIdsAreValid(m: Input)
    ensures AllValid(InReplyToIds(m)) && AllValid(ReferenceIds(m)) && AllValid(ChainIds(m))
  {
    InReplyToIdsAreValid(m);
    ReferenceIdsAreValid(m);
    AppendedIsValid(ReferenceIds(m), Tail(InReplyToIds(m)));
  }

  // ------------------------------------------------------------------
  // What the emitted chain promises
  // ------------------------------------------------------------------

  /** The emitted chain is the valid input references in their order, plus at most one
      id at the end, and it ends with the closest parent whenever there is one. */
  lemma ChainEndsWithTheParent(m: Input)
    ensures ChainIds(m) == ReferenceIds(m)
         || (InReplyToIds(m) != [] && ChainIds(m) == ReferenceIds(m) + [Tail(InReplyToIds(m))])
    ensures InReplyToIds(m) != [] ==> ChainIds(m) != [] && Tail(ChainIds(m)) == Tail(InReplyToIds(m))
  {
    InReplyToIdsAreValid(m);
    TailIsValid(InReplyToIds(m));
  }

  lemma TailIsValid(ids: seq<string>)
    requires AllValid(ids)
    ensures ids != [] ==> IsValid(Tail(ids)) && Tail(ids) != ""
  {
  }

  /** `small` is obtained from `large` by deleting entries. */
  ghost predicate IsSubsequence(small: seq<string>, large: seq<string>) {
    if small == [] then true
    else if large == [] then false
    else if small[0] == large[0] && IsSubsequence(small[1..], large[1..]) then true
    else IsSubsequence(small, large[1..])
  }

  /** Normalisation of every candidate, valid or not. */
  function Normalised(values: seq<string>): seq<string> {
    if values == [] then [] else [EnsureAngleBrackets(Sanitize(values[0]))] + Normalised(values[1..])
  }

  lemma {:induction false} ValidIdsAreInOrder(values: seq<string>)
    ensures IsSubsequence(ValidIds(values), Normalised(values))
  {
    if values != [] {
      ValidIdsAreInOrder(values[1..]);
      assert Normalised(values)[1..] == Normalised(values[1..]);
      if Checked(values[0]) != [] {
        assert ValidIds(values)[1..] == ValidIds(values[1..]);
      } else {
        assert ValidIds(values) == ValidIds(values[1..]);
      }
    }
  }

  /** Every token is a bracket pair around text without brackets. */
  lemma {:induction false} TokensAreBracketPairs(s: string, open: string)
    requires open == "" || (open[0] == '<' && Lacks(open[1..], {'<', '>'}))
    ensures forall i :: 0 <= i < |Tokens(s, open)| ==> IsBracketPair(Tokens(s, open)[i])
    decreases |s|
  {
    if s != "" {
      if s[0] == '<' {
        TokensAreBracketPairs(s[1..], "<");
      } else if s[0] == '>' {
        TokensAreBracketPairs(s[1..], "");
        if open != "" {
          assert (open + ">")[1..|open|] == open[1..];
          assert Tokens(s, open) == [open + ">"] + Tokens(s[1..], "");
        }
      } else {
        if open != "" {
          assert (open + [s[0]])[1..] == open[1..] + [s[0]];
        }
        TokensAreBracketPairs(s[1..], if open != "" then open + [s[0]] else "");
      }
    }
  }

  predicate IsBracketPair(t: string) {
    |t| >= 2 && t[0] == '<' && t[|t| - 1] == '>' && Lacks(t[1..|t| - 1], {'<', '>'})
  }

  /** Every such pair in the text is found, whatever surrounds it: stray brackets before
      it are passed over, and reading goes on right behind it. */
  lemma {:induction false} EveryPairIsFound(before: string, body: string, after: string, open: string)
    requires Lacks(body, {'<', '>'})
    ensures Tokens(before + "<" + body + ">" + after, open)
         == Tokens(before, open) + ["<" + body + ">"] + Tokens(after, "")
    decreases |before|
  {
    var s := before + "<" + body + ">" + after;
    if before == "" {
      assert s[0] == '<' && s[1..] == body + ">" + after;
      TokenRuns(body, after, "<");
    } else {
      assert s[0] == before[0] && s[1..] == before[1..] + "<" + body + ">" + after;
      var next :=
        if before[0] == '<' then "<" else if before[0] == '>' || open == "" then "" else open + [before[0]];
      EveryPairIsFound(before[1..], body, after, next);
      FirstToken(s, before, open, next);
    }
  }

  /** Reading one character, in a text and in a longer one that starts with it. */
  lemma FirstToken(s: string, before: string, open: string, next: string)
    requires s != "" && before != "" && s[0] == before[0]
    requires next == if before[0] == '<' then "<" else if before[0] == '>' || open == "" then "" else open + [before[0]]
    ensures var closed := if before[0] == '>' && open != "" then [open + ">"] else [];
            && Tokens(s, open) == closed + Tokens(s[1..], next)
            && Tokens(before, open) == closed + Tokens(before[1..], next)
  {
  }

  /** A token read from the middle of an id. */
  lemma {:induction false} TokenRuns(body: string, rest: string, open: string)
    requires Lacks(body, {'<', '>'}) && open != ""
    ensures Tokens(body + ">" + rest, open) == [open + body + ">"] + Tokens(rest, "")
    decreases body
  {
    var s := body + ">" + rest;
    if body == "" {
      assert s[0] == '>' && s[1..] == rest;
      assert open + body == open;
    } else {
      assert s[0] == body[0] && s[1..] == body[1..] + ">" + rest;
      TokenRuns(body[1..], rest, open + [body[0]]);
      assert open + [body[0]] + body[1..] == open + body;
    }
  }

  /** The bracket tokens of a written chain are its ids. */
  lemma {:induction false} TokensOfJoin(ids: seq<string>)
    requires AllValid(ids)
    ensures Tokens(Join(ids, " "), "") == ids
  {
    if ids != [] {
      var id, body := ids[0], ids[0][1..|ids[0]| - 1];
      assert IsValid(id);
      var rest := if |ids| == 1 then "" else " " + Join(ids[1..], " ");
      var s := Join(ids, " ");
      assert id == "<" + body + ">";
      assert s == "<" + (body + ">" + rest);
      assert s[1..] == body + ">" + rest;
      TokenRuns(body, rest, "<");
      assert "<" + body + ">" == id;
      if |ids| > 1 {
        TokensOfJoin(ids[1..]);
        assert rest[1..] == Join(ids[1..], " ");
      }
    }
  }

  lemma {:induction false} ValidIdsKeepsValid(ids: seq<string>)
    requires AllValid(ids)
    ensures ValidIds(ids) == ids
  {
    if ids != [] {
      assert IsValid(ids[0]);
      ValidateIsIdempotent(ids[0]);
      ValidIdsKeepsValid(ids[1..]);
    }
  }

  /** The message as a replay of its own wire headers. */
  function Replay(out: Output): Input {
    Input("", [], [], out.inReplyTo, out.references)
  }

  /** Composing again from the emitted headers emits the same headers, so replaying a
      message never lengthens its chain. */
  lemma ReplayIsAFixedPoint(m: Input)
    ensures ThreadingHeaders(Replay(ThreadingHeaders(m))) == ThreadingHeaders(m)
  {
    var parents, chain := InReplyToIds(m), ChainIds(m);
    var again := Replay(ThreadingHeaders(m));
    ChainIdsAreValid(m);
    ChainEndsWithTheParent(m);
    TokensOfJoin(parents);
    TokensOfJoin(chain);
    ValidIdsKeepsValid(parents);
    ValidIdsKeepsValid(chain);
    assert InReplyToIds(again) == parents && ReferenceIds(again) == chain;
  }

  /** The same replay through JMAP lists of the emitted ids. */
  lemma ReplayThroughListsIsAFixedPoint(m: Input)
    ensures var again := Input("", AsEntries(InReplyToIds(m)), AsEntries(ChainIds(m)), "", "");
            ThreadingHeaders(again) == ThreadingHeaders(m)
  {
    var parents, chain := InReplyToIds(m), ChainIds(m);
    var again := Input("", AsEntries(parents), AsEntries(chain), "", "");
    ChainIdsAreValid(m);
    ChainEndsWithTheParent(m);
    StringsOfEntries(parents);
    StringsOfEntries(chain);
    ValidIdsKeepsValid(parents);
    ValidIdsKeepsValid(chain);
    assert InReplyToIds(again) == parents && ReferenceIds(again) == chain;
  }

  lemma {:induction false} StringsOfEntries(ids: seq<string>)
    requires AllValid(ids)
    ensures Strings(AsEntries(ids)) == ids
    ensures AsEntries(ids) == [] <==> ids == []
  {
    if ids != [] {
      assert IsValid(ids[0]);
      StripFixed(ids[0]);
      assert AsEntries(ids)[1..] == AsEntries(ids[1..]);
      StringsOfEntries(ids[1..]);
    }
  }
}
