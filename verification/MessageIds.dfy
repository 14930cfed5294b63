/** Message-id headers as the parser reads them and as `msgid_chain` writes them. */
module MessageIds {
  import opened Text
  import opened Wrappers

  // ------------------------------------------------------------------
  // Comments and folding white space
  // ------------------------------------------------------------------

  /** What is left outside every comment; `depth` parens are already open. */
  function DropComments(s: string, depth: nat): string
    decreases |s|
  {
    if s == "" then ""
    else if s[0] == '\\' && |s| > 1 && depth >= 1 then DropComments(s[2..], depth)
    else if s[0] == '(' then DropComments(s[1..], depth + 1)
    else if s[0] == ')' && depth >= 1 then DropComments(s[1..], depth - 1)
    else if depth >= 1 then DropComments(s[1..], depth)
    else [s[0]] + DropComments(s[1..], depth)
  }

  /** Every run of white space becomes one blank. */
  function Collapse(s: string): string {
    if s == "" then ""
    else if !IsSpace(s[0]) then [s[0]] + Collapse(s[1..])
    else if |s| > 1 && IsSpace(s[1]) then Collapse(s[1..])
    else " " + Collapse(s[1..])
  }

  function StripCfws(s: string): string {
    Strip(Collapse(DropComments(s, 0)))
  }

  /** The same by positions, as the loop goes. */
  function DropFrom(s: string, i: nat, depth: nat): string
    decreases |s| - i
  {
    if i >= |s| then ""
    else if s[i] == '\\' && i + 1 < |s| && depth >= 1 then DropFrom(s, i + 2, depth)
    else if s[i] == '(' then DropFrom(s, i + 1, depth + 1)
    else if s[i] == ')' && depth >= 1 then DropFrom(s, i + 1, depth - 1)
    else if depth >= 1 then DropFrom(s, i + 1, depth)
    else [s[i]] + DropFrom(s, i + 1, depth)
  }

  lemma {:induction false} DropFromIsDrop(s: string, i: nat, depth: nat)
    requires i <= |s|
    ensures DropFrom(s, i, depth) == DropComments(s[i..], depth)
    decreases |s| - i
  {
    if i < |s| {
      var t := s[i..];
      assert t[0] == s[i] && t[1..] == s[i + 1..];
      if s[i] == '\\' && i + 1 < |s| && depth >= 1 {
        assert t[2..] == s[i + 2..];
        DropFromIsDrop(s, i + 2, depth);
      } else if s[i] == '(' {
        DropFromIsDrop(s, i + 1, depth + 1);
      } else {
        DropFromIsDrop(s, i + 1, if s[i] == ')' && depth >= 1 then depth - 1 else depth);
      }
    }
  }

  method DropCommentsOf(value: string) returns (out: string)
    ensures out == DropComments(value, 0)
  {
    out := "";
    var depth, i := 0, 0;
    while i < |value|
      invariant 0 <= i <= |value| && depth >= 0
      invariant out + DropFrom(value, i, depth) == DropFrom(value, 0, 0)
    {
      var ch := value[i];
      if ch == '\\' && i + 1 < |value| && depth >= 1 {
        i := i + 2;
        continue;
      }
      if ch == '(' {
        depth := depth + 1;
        i := i + 1;
        continue;
      }
      if ch == ')' && depth >= 1 {
        depth := depth - 1;
        i := i + 1;
        continue;
      }
      if depth >= 1 {
        i := i + 1;
        continue;
      }
      assert out + ([ch] + DropFrom(value, i + 1, depth)) == out + [ch] + DropFrom(value, i + 1, depth);
      out := out + [ch];
      i := i + 1;
    }
    DropFromIsDrop(value, 0, 0);
    assert value[0..] == value && out + "" == out;
  }

  method StripCfwsOf(value: string) returns (r: string)
    ensures r == StripCfws(value)
  {
    if value == "" {
      return "";
    }
    var out := DropCommentsOf(value);
    return Strip(Collapse(out));
  }

  /** No two adjacent white-space characters, and no white space but blanks. */
  predicate Collapsed(s: string) {
    forall i :: 0 <= i < |s| && IsSpace(s[i]) ==> s[i] == ' ' && (i + 1 < |s| ==> !IsSpace(s[i + 1]))
  }

  lemma {:induction false} DropCommentsLeavesNoParen(s: string, depth: nat)
    ensures Lacks(DropComments(s, depth), {'('})
    decreases |s|
  {
    if s == "" {
    } else if s[0] == '\\' && |s| > 1 && depth >= 1 {
      DropCommentsLeavesNoParen(s[2..], depth);
    } else if s[0] == '(' {
      DropCommentsLeavesNoParen(s[1..], depth + 1);
    } else if s[0] == ')' && depth >= 1 {
      DropCommentsLeavesNoParen(s[1..], depth - 1);
    } else {
      DropCommentsLeavesNoParen(s[1..], depth);
    }
  }

  lemma {:induction false} CollapseCollapses(s: string)
    ensures Collapsed(Collapse(s))
    ensures Lacks(s, {'('}) ==> Lacks(Collapse(s), {'('})
    ensures s != "" ==> Collapse(s) != "" && (IsSpace(Collapse(s)[0]) <==> IsSpace(s[0]))
  {
    if s != "" {
      CollapseCollapses(s[1..]);
    }
  }

  lemma {:induction false} NoParenNothingDropped(s: string)
    requires Lacks(s, {'('})
    ensures DropComments(s, 0) == s
  {
    if s != "" {
      NoParenNothingDropped(s[1..]);
    }
  }

  lemma {:induction false} CollapsedStays(s: string)
    requires Collapsed(s)
    ensures Collapse(s) == s
  {
    if s != "" {
      CollapsedStays(s[1..]);
    }
  }

  /** For every input the result holds no `(`, and reading it again changes nothing. */
  lemma StripCfwsIsIdempotent(s: string)
    ensures Lacks(StripCfws(s), {'('})
    ensures StripCfws(StripCfws(s)) == StripCfws(s)
  {
    var visible := DropComments(s, 0);
    DropCommentsLeavesNoParen(s, 0);
    CollapseCollapses(visible);
    StripTrims(Collapse(visible));
    StripCfwsFixes(StripCfws(s));
  }

  lemma StripCfwsFixes(s: string)
    requires Lacks(s, {'('}) && Collapsed(s) && Trimmed(s)
    ensures StripCfws(s) == s
  {
    NoParenNothingDropped(s);
    CollapsedStays(s);
    StripFixed(s);
  }

  // ------------------------------------------------------------------
  // Reading a chain
  // ------------------------------------------------------------------

  function TokenLength(s: string): (n: nat)
    ensures n <= |s|
    ensures s != "" && !IsSpace(s[0]) ==> n > 0
  {
    if s == "" || IsSpace(s[0]) then 0 else 1 + TokenLength(s[1..])
  }

  /** `s.split()`. */
  function Words(s: string): seq<string>
    decreases |s|
  {
    if s == "" then []
    else if IsSpace(s[0]) then Words(s[1..])
    else [s[..TokenLength(s)]] + Words(s[TokenLength(s)..])
  }

  function Unbracket(token: string): string {
    var t := Strip(token);
    if StartsWith(t, '<') && EndsWith(t, '>') && |t| >= 2 then t[1..|t| - 1] else t
  }

  function NonEmpty(tokens: seq<string>): seq<string> {
    if tokens == [] then []
    else (if Unbracket(tokens[0]) != "" then [Unbracket(tokens[0])] else []) + NonEmpty(tokens[1..])
  }

  /** The ids of a header value; `None` when it holds none. */
  function JmapMessageIds(raw: string): Option<seq<string>> {
    var ids := NonEmpty(Words(StripCfws(raw)));
    if raw == "" || ids == [] then None else Some(ids)
  }

  lemma {:induction false} NonEmptySnoc(tokens: seq<string>, t: string)
    ensures NonEmpty(tokens + [t]) == NonEmpty(tokens) + (if Unbracket(t) != "" then [Unbracket(t)] else [])
  {
    if tokens == [] {
      assert [t][1..] == [];
    } else {
      assert (tokens + [t])[1..] == tokens[1..] + [t];
      NonEmptySnoc(tokens[1..], t);
    }
  }

  method UnbracketAllOf(tokens: seq<string>) returns (ids: seq<string>)
    ensures ids == NonEmpty(tokens)
  {
    ids := [];
    var i := 0;
    while i < |tokens|
      invariant 0 <= i <= |tokens|
      invariant ids == NonEmpty(tokens[..i])
    {
      assert tokens[..i + 1] == tokens[..i] + [tokens[i]];
      NonEmptySnoc(tokens[..i], tokens[i]);
      var stripped := Unbracket(tokens[i]);
      if stripped != "" {
        ids := ids + [stripped];
      }
      i := i + 1;
    }
    assert tokens[..i] == tokens;
  }

  method JmapMessageIdsOf(raw: string) returns (r: Option<seq<string>>)
    ensures r == JmapMessageIds(raw)
  {
    if raw == "" {
      return None;
    }
    var cleaned := StripCfwsOf(raw);
    var ids := UnbracketAllOf(Words(cleaned));
    return if ids == [] then None else Some(ids);
  }

  // ------------------------------------------------------------------
  // Writing a chain
  // ------------------------------------------------------------------

  /** An element of the caller's id list. */
  datatype Entry = Id(value: string) | NotAString

  predicate Writable(id: string) {
    id != "" && NoSpace(id) && Clean(id) && Lacks(id, {'<', '>'})
  }

  /** The id an element contributes, without brackets; elements that cannot be written
      as they stand contribute nothing. */
  function Kept(e: Entry): seq<string> {
    if e.NotAString? || e.value == "" then []
    else
      var s := Strip(e.value);
      var id := if StartsWith(s, '<') && EndsWith(s, '>') then s[1..|s| - 1] else s;
      if Writable(id) then [id] else []
  }

  function KeptIds(entries: seq<Entry>): seq<string> {
    if entries == [] then [] else Kept(entries[0]) + KeptIds(entries[1..])
  }

  function Bracketed(ids: seq<string>): (r: seq<string>)
    ensures |r| == |ids|
  {
    if ids == [] then [] else ["<" + ids[0] + ">"] + Bracketed(ids[1..])
  }

  lemma {:induction false} BracketedAt(ids: seq<string>, i: nat)
    requires i < |ids|
    ensures Bracketed(ids)[i] == "<" + ids[i] + ">"
  {
    if i > 0 {
      BracketedAt(ids[1..], i - 1);
    }
  }

  lemma {:induction false} BracketedConcat(a: seq<string>, b: seq<string>)
    ensures Bracketed(a + b) == Bracketed(a) + Bracketed(b)
  {
    if a == [] {
      assert a + b == b;
    } else {
      assert (a + b)[1..] == a[1..] + b;
      BracketedConcat(a[1..], b);
    }
  }

  function MsgidChain(entries: seq<Entry>): string {
    Join(Bracketed(KeptIds(entries)), " ")
  }

  lemma {:induction false} KeptIdsSnoc(entries: seq<Entry>, e: Entry)
    ensures KeptIds(entries + [e]) == KeptIds(entries) + Kept(e)
  {
    if entries == [] {
      assert [e][1..] == [];
    } else {
      assert (entries + [e])[1..] == entries[1..] + [e];
      KeptIdsSnoc(entries[1..], e);
    }
  }

  method MsgidChainOf(entries: seq<Entry>) returns (r: string)
    ensures r == MsgidChain(entries)
  {
    var out: seq<string> := [];
    var i := 0;
    while i < |entries|
      invariant 0 <= i <= |entries|
      invariant out == Bracketed(KeptIds(entries[..i]))
    {
      assert entries[..i + 1] == entries[..i] + [entries[i]];
      KeptIdsSnoc(entries[..i], entries[i]);
      BracketedConcat(KeptIds(entries[..i]), Kept(entries[i]));
      var tokens := TokensFor(entries[i]);
      out := out + tokens;
      i := i + 1;
    }
    assert entries[..i] == entries;
    return Join(out, " ");
  }

  /** The loop body: what one entry appends, a bracketed id or nothing. */
  method TokensFor(e: Entry) returns (r: seq<string>)
    ensures r == Bracketed(Kept(e))
  {
    if e.NotAString? || e.value == "" {
      return [];
    }
    var sanitized := Strip(e.value);
    if StartsWith(sanitized, '<') && EndsWith(sanitized, '>') {
      sanitized := sanitized[1..|sanitized| - 1];
    }
    if !Writable(sanitized) {
      return [];
    }
    assert Bracketed([sanitized]) == ["<" + sanitized + ">"] + Bracketed([sanitized][1..]);
    return ["<" + sanitized + ">"];
  }

  // ------------------------------------------------------------------
  // Round trip
  // ------------------------------------------------------------------

  predicate AllWritable(ids: seq<string>) {
    forall i :: 0 <= i < |ids| ==> Writable(ids[i])
  }

  predicate NoParen(ids: seq<string>) {
    forall i :: 0 <= i < |ids| ==> Lacks(ids[i], {'('})
  }

  lemma {:induction false} KeptIdsAreWritable(entries: seq<Entry>)
    ensures AllWritable(KeptIds(entries))
  {
    if entries != [] {
      KeptIdsAreWritable(entries[1..]);
    }
  }

  /** Blank-separated words: none is empty or holds white space. */
  predicate AreWords(words: seq<string>) {
    forall i :: 0 <= i < |words| ==> words[i] != "" && NoSpace(words[i])
  }

  lemma {:induction false} TokenLengthOf(w: string, rest: string)
    requires NoSpace(w) && (rest != "" ==> IsSpace(rest[0]))
    ensures TokenLength(w + rest) == |w|
  {
    if w == "" {
      assert w + rest == rest;
    } else {
      assert (w + rest)[1..] == w[1..] + rest;
      TokenLengthOf(w[1..], rest);
    }
  }

  /** Splitting a blank-joined list of words gives the words back. */
  lemma {:induction false} WordsOfJoin(words: seq<string>)
    requires AreWords(words)
    ensures Words(Join(words, " ")) == words
  {
    if |words| == 1 {
      var w := words[0];
      TokenLengthOf(w, "");
      assert w + "" == w;
      assert w[..|w|] == w && w[|w|..] == "";
    } else if |words| > 1 {
      var w, rest := words[0], Join(words[1..], " ");
      var s := Join(words, " ");
      assert s == w + (" " + rest);
      TokenLengthOf(w, " " + rest);
      assert s[..|w|] == w && s[|w|..] == " " + rest;
      assert (" " + rest)[1..] == rest;
      WordsOfJoin(words[1..]);
    }
  }

  /** A blank-joined list of words is collapsed and trimmed. */
  lemma {:induction false} JoinIsCollapsed(words: seq<string>)
    requires AreWords(words)
    ensures Collapsed(Join(words, " ")) && Trimmed(Join(words, " "))
    ensures words != [] ==> Join(words, " ") != ""
  {
    if |words| > 1 {
      JoinIsCollapsed(words[1..]);
      var rest := Join(words[1..], " ");
      var s := words[0] + " " + rest;
      assert Join(words, " ") == s;
      forall i | 0 <= i < |s| && IsSpace(s[i])
        ensures s[i] == ' ' && (i + 1 < |s| ==> !IsSpace(s[i + 1]))
      {
        if i > |words[0]| {
          assert s[i] == rest[i - |words[0]| - 1];
        }
      }
      assert s[|s| - 1] == rest[|rest| - 1];
    } else if |words| == 1 {
      assert words[0] != "" && NoSpace(words[0]);
    }
  }

  lemma {:induction false} JoinLacks(words: seq<string>, c: char)
    requires c != ' ' && forall i :: 0 <= i < |words| ==> Lacks(words[i], {c})
    ensures Lacks(Join(words, " "), {c})
  {
    if |words| > 1 {
      JoinLacks(words[1..], c);
    }
  }

  lemma BracketedAreWords(ids: seq<string>)
    requires AllWritable(ids)
    ensures AreWords(Bracketed(ids))
  {
    forall i | 0 <= i < |ids| ensures Bracketed(ids)[i] != "" && NoSpace(Bracketed(ids)[i]) {
      assert Writable(ids[i]);
      BracketedAt(ids, i);
    }
  }

  lemma UnbracketBracketed(id: string)
    requires Writable(id)
    ensures Unbracket("<" + id + ">") == id
  {
    var b := "<" + id + ">";
    StripFixed(b);
    assert b[1..|b| - 1] == id;
  }

  lemma {:induction false} UnbracketAll(ids: seq<string>)
    requires AllWritable(ids)
    ensures NonEmpty(Bracketed(ids)) == ids
  {
    if ids != [] {
      assert Writable(ids[0]);
      UnbracketBracketed(ids[0]);
      assert Bracketed(ids)[0] == "<" + ids[0] + ">" && Bracketed(ids)[1..] == Bracketed(ids[1..]);
      UnbracketAll(ids[1..]);
    }
  }

  lemma UnbracketLacks(w: string, c: char)
    requires Lacks(w, {c})
    ensures Lacks(Unbracket(w), {c})
  {
    StripTrims(w);
    var i, j :| 0 <= i <= j <= |w| && Strip(w) == w[i..j];
    assert Lacks(w[i..j], {c});
  }

  lemma {:induction false} WordsLack(s: string, c: char)
    requires Lacks(s, {c})
    ensures forall i :: 0 <= i < |NonEmpty(Words(s))| ==> Lacks(NonEmpty(Words(s))[i], {c})
    decreases |s|
  {
    if s == "" {
    } else if IsSpace(s[0]) {
      WordsLack(s[1..], c);
    } else {
      var w := s[..TokenLength(s)];
      WordsLack(s[TokenLength(s)..], c);
      UnbracketLacks(w, c);
      assert Words(s)[1..] == Words(s[TokenLength(s)..]);
    }
  }

  /** Reading back a written chain yields the ids that were written, if and only if none
      of them holds an opening paren. */
  lemma ChainRoundTripsWithoutParens(entries: seq<Entry>)
    ensures JmapMessageIds(MsgidChain(entries)) == (if KeptIds(entries) == [] then None else Some(KeptIds(entries)))
       <==> NoParen(KeptIds(entries))
  {
    var ids := KeptIds(entries);
    var chain := MsgidChain(entries);
    KeptIdsAreWritable(entries);
    if NoParen(ids) {
      ChainReadsBack(ids);
    } else {
      StripCfwsIsIdempotent(chain);
      WordsLack(StripCfws(chain), '(');
    }
  }

  lemma ChainReadsBack(ids: seq<string>)
    requires AllWritable(ids) && NoParen(ids)
    ensures JmapMessageIds(Join(Bracketed(ids), " ")) == if ids == [] then None else Some(ids)
  {
    var words := Bracketed(ids);
    BracketedAreWords(ids);
    JoinIsCollapsed(words);
    forall i | 0 <= i < |words| ensures Lacks(words[i], {'('}) {
      assert Lacks(ids[i], {'('});
      BracketedAt(ids, i);
    }
    JoinLacks(words, '(');
    StripCfwsFixes(Join(words, " "));
    WordsOfJoin(words);
    UnbracketAll(ids);
  }

  function AsEntries(ids: seq<string>): seq<Entry> {
    if ids == [] then [] else [Id(ids[0])] + AsEntries(ids[1..])
  }

  /** Ids without white space, stripped controls, angle brackets and opening parens come
      back exactly as they went in. */
  lemma {:induction false} CleanIdsSurvive(ids: seq<string>)
    requires ids != [] && AllWritable(ids) && NoParen(ids)
    ensures JmapMessageIds(MsgidChain(AsEntries(ids))) == Some(ids)
  {
    NothingIsDropped(ids);
    ChainReadsBack(ids);
  }

  lemma {:induction false} NothingIsDropped(ids: seq<string>)
    requires AllWritable(ids)
    ensures KeptIds(AsEntries(ids)) == ids
  {
    if ids != [] {
      assert Writable(ids[0]);
      StripFixed(ids[0]);
      assert Kept(Id(ids[0])) == [ids[0]];
      assert AsEntries(ids)[1..] == AsEntries(ids[1..]);
      NothingIsDropped(ids[1..]);
    }
  }
}
