/** The threading inputs by what they say: the ids of a header whatever white space and comments
    stand between them, the ids that are accepted, and which of several sources counts. */
module ThreadingInputs {
  import opened Text
  import opened Wrappers
  import opened CommentGrammar
  import opened MessageIds
  import opened References

  // ------------------------------------------------------------------
  // Words
  // ------------------------------------------------------------------

  /** A character in front of a text starts a word, joins the first one, or is a blank. */
  lemma WordsStep(s: string)
    requires s != "" && !IsSpace(s[0])
    ensures if |s| == 1 || IsSpace(s[1]) then Words(s) == [[s[0]]] + Words(s[1..])
            else Words(s[1..]) != [] && Words(s) == [[s[0]] + Words(s[1..])[0]] + Words(s[1..])[1..]
  {
    var n, t := TokenLength(s), s[1..];
    assert n == 1 + TokenLength(t);
    assert s[n..] == t[n - 1..];
    assert s[..n] == [s[0]] + t[..n - 1];
    if |s| == 1 || IsSpace(s[1]) {
      assert s[..n] == [s[0]];
    } else {
      assert Words(t) == [t[..n - 1]] + Words(t[n - 1..]);
    }
  }

  lemma {:induction false} WordsOfCollapsed(s: string)
    ensures Words(Collapse(s)) == Words(s)
    decreases |s|
  {
    if s == "" {
    } else {
      WordsOfCollapsed(s[1..]);
      CollapseCollapses(s[1..]);
      var c := Collapse(s);
      if !IsSpace(s[0]) {
        assert c[1..] == Collapse(s[1..]);
        WordsStep(s);
        WordsStep(c);
      } else if |s| == 1 || !IsSpace(s[1]) {
        assert IsSpace(' ') && c[1..] == Collapse(s[1..]);
      }
    }
  }

  lemma {:induction false} WordsOfStrippedLeft(s: string)
    ensures Words(StripLeft(s)) == Words(s)
  {
    if s != "" && IsSpace(s[0]) {
      WordsOfStrippedLeft(s[1..]);
    }
  }

  lemma {:induction false} WordsSnocBlank(s: string, c: char)
    requires IsSpace(c)
    ensures Words(s + [c]) == Words(s)
    decreases |s|
  {
    var t := s + [c];
    if s == "" {
      assert t[1..] == "";
    } else {
      assert t[0] == s[0] && t[1..] == s[1..] + [c];
      WordsSnocBlank(s[1..], c);
      if !IsSpace(s[0]) {
        WordsStep(s);
        WordsStep(t);
      }
    }
  }

  lemma {:induction false} WordsOfStrippedRight(s: string)
    ensures Words(StripRight(s)) == Words(s)
  {
    if s != "" && IsSpace(s[|s| - 1]) {
      var init := s[..|s| - 1];
      WordsOfStrippedRight(init);
      WordsSnocBlank(init, s[|s| - 1]);
      assert init + [s[|s| - 1]] == s;
    }
  }

  /** Collapsing and stripping white space changes no word of the text left outside comments. */
  lemma WordsOfStripped(s: string)
    ensures Words(StripCfws(s)) == Words(DropComments(s, 0))
  {
    var visible := DropComments(s, 0);
    WordsOfCollapsed(visible);
    WordsOfStrippedLeft(Collapse(visible));
    WordsOfStrippedRight(StripLeft(Collapse(visible)));
  }

  // ------------------------------------------------------------------
  // A header between white space and comments
  // ------------------------------------------------------------------

  /** Comments and folding white space (section 3.2.2 of RFC 5322). */
  datatype Cfws = Blank(c: char) | Remark(inside: seq<Piece>)

  function PrintCfws(item: Cfws): string {
    match item
    case Blank(c) => [c]
    case Remark(inside) => Comment(inside)
  }

  function PrintGap(gap: seq<Cfws>): string {
    if gap == [] then "" else PrintCfws(gap[0]) + PrintGap(gap[1..])
  }

  predicate IsCfws(item: Cfws) {
    match item
    case Blank(c) => IsWhite(c)
    case Remark(inside) => WellFormed(inside)
  }

  predicate IsGap(gap: seq<Cfws>) {
    forall i :: 0 <= i < |gap| ==> IsCfws(gap[i])
  }

  predicate HasBlank(gap: seq<Cfws>) {
    exists i :: 0 <= i < |gap| && gap[i].Blank?
  }

  /** A word of a header: an id in angle brackets, or anything else. */
  datatype Word = Angle(id: string) | Bare(text: string)

  function PrintWord(w: Word): string {
    match w
    case Angle(id) => "<" + id + ">"
    case Bare(text) => text
  }

  predicate IsPlain(s: string) {
    forall i :: 0 <= i < |s| ==> !IsWhite(s[i]) && s[i] != '('
  }

  /** Without white space and opening parens; a bare word is not empty, and not in brackets. */
  predicate IsWord(w: Word) {
    match w
    case Angle(id) => IsPlain(id)
    case Bare(text) => IsPlain(text) && text != "" && !(text[0] == '<' && text[|text| - 1] == '>')
  }

  /** The ids of the words, empty ones left out. */
  function IdsOf(words: seq<Word>): seq<string> {
    if words == [] then [] else IdOf(words[0]) + IdsOf(words[1..])
  }

  function IdOf(w: Word): seq<string> {
    match w
    case Angle(id) => if id == "" then [] else [id]
    case Bare(text) => [text]
  }

  /** A comment that is never closed, or nothing. */
  function PrintTail(tail: Option<seq<Piece>>): string {
    if tail.None? then "" else "(" + Print(tail.value)
  }

  /** The words, with a gap before each and after the last, and an unclosed comment perhaps. */
  function PrintHeader(words: seq<Word>, gaps: seq<seq<Cfws>>, tail: Option<seq<Piece>>): string
    requires |gaps| == |words| + 1
  {
    if words == [] then PrintGap(gaps[0]) + PrintTail(tail)
    else PrintGap(gaps[0]) + (PrintWord(words[0]) + PrintHeader(words[1..], gaps[1..], tail))
  }

  /** Every gap is well formed, and two words are apart by some white space. */
  predicate AreGaps(gaps: seq<seq<Cfws>>) {
    && (forall i :: 0 <= i < |gaps| ==> IsGap(gaps[i]))
    && (forall i :: 0 < i < |gaps| - 1 ==> HasBlank(gaps[i]))
  }

  /** What stays of a gap. */
  function Blanks(gap: seq<Cfws>): string {
    if gap == [] then "" else BlankOf(gap[0]) + Blanks(gap[1..])
  }

  function BlankOf(item: Cfws): string {
    if item.Blank? then [item.c] else ""
  }

  lemma {:induction false} BlanksAre(gap: seq<Cfws>)
    requires IsGap(gap)
    ensures AllSpace(Blanks(gap)) && (HasBlank(gap) ==> Blanks(gap) != "")
  {
    if gap != [] {
      BlanksAre(gap[1..]);
      if gap[0].Blank? {
        SpacesAreWhite(gap[0].c);
      } else if HasBlank(gap) {
        var i :| 0 <= i < |gap| && gap[i].Blank?;
        assert gap[1..][i - 1].Blank?;
      }
    }
  }

  lemma CfwsIsDropped(item: Cfws, tail: string)
    requires IsCfws(item)
    ensures DropComments(PrintCfws(item) + tail, 0) == BlankOf(item) + DropComments(tail, 0)
  {
    match item
    case Blank(c) => assert ([c] + tail)[1..] == tail;
    case Remark(inside) => CommentIsDropped(inside, tail, 0);
  }

  lemma Associative(a: string, b: string, c: string)
    ensures a + b + c == a + (b + c)
  {
  }

  lemma {:induction false} GapIsDropped(gap: seq<Cfws>, rest: string)
    requires IsGap(gap)
    ensures DropComments(PrintGap(gap) + rest, 0) == Blanks(gap) + DropComments(rest, 0)
  {
    if gap == [] {
      assert PrintGap(gap) + rest == rest;
    } else {
      GapIsDropped(gap[1..], rest);
      CfwsIsDropped(gap[0], PrintGap(gap[1..]) + rest);
      Associative(PrintCfws(gap[0]), PrintGap(gap[1..]), rest);
      Associative(BlankOf(gap[0]), Blanks(gap[1..]), DropComments(rest, 0));
    }
  }

  lemma TailIsDropped(tail: Option<seq<Piece>>)
    requires tail.Some? ==> WellFormed(tail.value)
    ensures DropComments(PrintTail(tail), 0) == ""
  {
    if tail.Some? {
      InsideIsDropped(tail.value, "", 1);
      assert Print(tail.value) + "" == Print(tail.value);
      assert PrintTail(tail)[1..] == Print(tail.value);
    }
  }

  lemma LastGapIsDropped(gap: seq<Cfws>, tail: Option<seq<Piece>>)
    requires IsGap(gap) && (tail.Some? ==> WellFormed(tail.value))
    ensures DropComments(PrintGap(gap) + PrintTail(tail), 0) == Blanks(gap)
  {
    GapIsDropped(gap, PrintTail(tail));
    TailIsDropped(tail);
    assert Blanks(gap) + "" == Blanks(gap);
  }

  lemma {:induction false} PlainStays(s: string, rest: string)
    requires Lacks(s, {'('})
    ensures DropComments(s + rest, 0) == s + DropComments(rest, 0)
    decreases s
  {
    if s == "" {
      assert s + rest == rest;
    } else {
      assert (s + rest)[0] == s[0] && (s + rest)[1..] == s[1..] + rest;
      PlainStays(s[1..], rest);
      assert [s[0]] + (s[1..] + DropComments(rest, 0)) == s + DropComments(rest, 0);
    }
  }

  lemma {:induction false} WordsAfterBlanks(blanks: string, rest: string)
    requires AllSpace(blanks)
    ensures Words(blanks + rest) == Words(rest)
    decreases blanks
  {
    if blanks == "" {
      assert blanks + rest == rest;
    } else {
      assert (blanks + rest)[1..] == blanks[1..] + rest;
      WordsAfterBlanks(blanks[1..], rest);
    }
  }

  lemma {:induction false} BlanksHoldNoWord(blanks: string)
    requires AllSpace(blanks)
    ensures Words(blanks) == []
  {
    if blanks != "" {
      BlanksHoldNoWord(blanks[1..]);
    }
  }

  lemma WordInFront(word: string, rest: string)
    requires word != "" && NoSpace(word) && (rest != "" ==> IsSpace(rest[0]))
    ensures Words(word + rest) == [word] + Words(rest)
  {
    TokenLengthOf(word, rest);
    assert (word + rest)[..|word|] == word && (word + rest)[|word|..] == rest;
  }

  lemma WordIsAWord(w: Word)
    requires IsWord(w)
    ensures PrintWord(w) != "" && NoSpace(PrintWord(w)) && Lacks(PrintWord(w), {'('})
    ensures (if Unbracket(PrintWord(w)) != "" then [Unbracket(PrintWord(w))] else []) == IdOf(w)
  {
    var word := PrintWord(w);
    forall i | 0 <= i < |word| ensures !IsSpace(word[i]) {
      SpacesAreWhite(word[i]);
    }
    StripFixed(word);
    if w.Angle? {
      assert word[1..|word| - 1] == w.id;
    }
  }

  lemma WordBehindBlanks(blanks: string, word: string, rest: string)
    requires AllSpace(blanks) && word != "" && NoSpace(word) && (rest != "" ==> IsSpace(rest[0]))
    ensures Words(blanks + (word + rest)) == [word] + Words(rest)
  {
    WordsAfterBlanks(blanks, word + rest);
    WordInFront(word, rest);
  }

  /** Nothing is visible, or a blank first. */
  predicate StartsBlank(visible: string) {
    visible != "" ==> IsSpace(visible[0])
  }

  lemma BlankFirst(blanks: string, rest: string)
    requires AllSpace(blanks) && (blanks != "" || rest == "")
    ensures StartsBlank(blanks + rest)
  {
  }

  predicate AreWords(words: seq<Word>) {
    forall i :: 0 <= i < |words| ==> IsWord(words[i])
  }

  function Visible(words: seq<Word>, gaps: seq<seq<Cfws>>, tail: Option<seq<Piece>>): string
    requires |gaps| == |words| + 1
  {
    DropComments(PrintHeader(words, gaps, tail), 0)
  }

  lemma VisibleIs(words: seq<Word>, gaps: seq<seq<Cfws>>, tail: Option<seq<Piece>>)
    requires |gaps| == |words| + 1 && AreGaps(gaps) && AreWords(words) && (tail.Some? ==> WellFormed(tail.value))
    ensures Visible(words, gaps, tail) ==
              if words == [] then Blanks(gaps[0])
              else Blanks(gaps[0]) + (PrintWord(words[0]) + Visible(words[1..], gaps[1..], tail))
  {
    if words == [] {
      LastGapIsDropped(gaps[0], tail);
    } else {
      WordIsAWord(words[0]);
      var rest := PrintHeader(words[1..], gaps[1..], tail);
      GapIsDropped(gaps[0], PrintWord(words[0]) + rest);
      PlainStays(PrintWord(words[0]), rest);
    }
  }

  lemma VisibleStartsBlank(words: seq<Word>, gaps: seq<seq<Cfws>>, tail: Option<seq<Piece>>)
    requires |gaps| == |words| + 1 && AreGaps(gaps) && AreWords(words) && (HasBlank(gaps[0]) || words == [])
    requires tail.Some? ==> WellFormed(tail.value)
    ensures StartsBlank(Visible(words, gaps, tail))
  {
    VisibleIs(words, gaps, tail);
    BlanksAre(gaps[0]);
    if words == [] {
      BlankFirst(Blanks(gaps[0]), "");
    } else {
      BlankFirst(Blanks(gaps[0]), PrintWord(words[0]) + Visible(words[1..], gaps[1..], tail));
    }
  }

  lemma {:induction false} WordsOfHeader(words: seq<Word>, gaps: seq<seq<Cfws>>, tail: Option<seq<Piece>>)
    requires |gaps| == |words| + 1 && AreGaps(gaps) && AreWords(words) && (tail.Some? ==> WellFormed(tail.value))
    ensures NonEmpty(Words(Visible(words, gaps, tail))) == IdsOf(words)
  {
    VisibleIs(words, gaps, tail);
    BlanksAre(gaps[0]);
    if words == [] {
      BlanksHoldNoWord(Blanks(gaps[0]));
    } else {
      var word, rest := PrintWord(words[0]), Visible(words[1..], gaps[1..], tail);
      WordsOfHeader(words[1..], gaps[1..], tail);
      VisibleStartsBlank(words[1..], gaps[1..], tail);
      WordIsAWord(words[0]);
      WordBehindBlanks(Blanks(gaps[0]), word, rest);
      NonEmptyCons(word, Words(rest));
    }
  }

  lemma NonEmptyCons(word: string, rest: seq<string>)
    ensures NonEmpty([word] + rest) == (if Unbracket(word) != "" then [Unbracket(word)] else []) + NonEmpty(rest)
  {
    assert ([word] + rest)[1..] == rest;
  }

  /** Reading a header gives exactly its ids, in order, whatever white space and comments,
      nested and escaped as they may be, stand around and between its words, and whatever
      comment is left open behind them. */
  lemma HeaderIsReadThroughCfws(words: seq<Word>, gaps: seq<seq<Cfws>>, tail: Option<seq<Piece>>)
    requires |gaps| == |words| + 1 && AreGaps(gaps) && AreWords(words) && (tail.Some? ==> WellFormed(tail.value))
    ensures JmapMessageIds(PrintHeader(words, gaps, tail)) == if IdsOf(words) == [] then None else Some(IdsOf(words))
  {
    WordsOfHeader(words, gaps, tail);
    WordsOfStripped(PrintHeader(words, gaps, tail));
  }

  // ------------------------------------------------------------------
  // What is written of a list
  // ------------------------------------------------------------------

  predicate AllWhite(s: string) {
    forall i :: 0 <= i < |s| ==> IsWhite(s[i])
  }

  /** Not empty, without white space, control characters and angle brackets. */
  predicate CanBeWritten(id: string) {
    id != "" && forall i :: 0 <= i < |id| ==> !IsWhite(id[i]) && !IsControl(id[i]) && id[i] != '<' && id[i] != '>'
  }

  lemma WritableIs(id: string)
    ensures Writable(id) <==> CanBeWritten(id)
  {
    forall i | 0 <= i < |id|
      ensures (IsSpace(id[i]) <==> IsWhite(id[i])) && (IsStripped(id[i]) <==> IsControl(id[i]))
    {
      SpacesAreWhite(id[i]);
      StrippedAreControls(id[i]);
    }
  }

  lemma {:induction false} StripWhiteLeft(left: string, rest: string)
    requires AllWhite(left) && (rest == "" || !IsWhite(rest[0]))
    ensures StripLeft(left + rest) == rest
    decreases left
  {
    if left == "" {
      assert left + rest == rest;
      if rest != "" {
        SpacesAreWhite(rest[0]);
      }
    } else {
      SpacesAreWhite(left[0]);
      assert (left + rest)[1..] == left[1..] + rest;
      StripWhiteLeft(left[1..], rest);
    }
  }

  lemma {:induction false} StripWhiteRight(rest: string, right: string)
    requires AllWhite(right) && (rest == "" || !IsWhite(rest[|rest| - 1]))
    ensures StripRight(rest + right) == rest
    decreases right
  {
    if right == "" {
      assert rest + right == rest;
      if rest != "" {
        SpacesAreWhite(rest[|rest| - 1]);
      }
    } else {
      var s, init := rest + right, right[..|right| - 1];
      SpacesAreWhite(right[|right| - 1]);
      assert s[|s| - 1] == right[|right| - 1] && s[..|s| - 1] == rest + init;
      StripWhiteRight(rest, init);
    }
  }

  /** The text between the white space at the two ends. */
  lemma StripIs(left: string, core: string, right: string)
    requires AllWhite(left) && AllWhite(right)
    requires core != "" && !IsWhite(core[0]) && !IsWhite(core[|core| - 1])
    ensures Strip(left + core + right) == core
  {
    assert left + core + right == left + (core + right);
    StripWhiteLeft(left, core + right);
    StripWhiteRight(core, right);
  }

  /** Of a list to be written, an entry adds exactly one id: what stands between the white
      space at its ends, without a pair of angle brackets around it, if that can be written;
      otherwise it adds nothing, as do entries that are no strings. */
  lemma WrittenExactly(entries: seq<Entry>, left: string, core: string, right: string)
    requires AllWhite(left) && AllWhite(right)
    requires core != "" && !IsWhite(core[0]) && !IsWhite(core[|core| - 1])
    ensures var id := if core[0] == '<' && core[|core| - 1] == '>' then core[1..|core| - 1] else core;
            KeptIds(entries + [Id(left + core + right)]) ==
              KeptIds(entries) + if CanBeWritten(id) then [id] else []
    ensures KeptIds(entries + [NotAString]) == KeptIds(entries)
  {
    var v := left + core + right;
    KeptIdsSnoc(entries, Id(v));
    KeptIdsSnoc(entries, NotAString);
    StripIs(left, core, right);
    WritableIs(if core[0] == '<' && core[|core| - 1] == '>' then core[1..|core| - 1] else core);
    assert KeptIds(entries) + [] == KeptIds(entries);
  }

  // ------------------------------------------------------------------
  // Which ids are accepted
  // ------------------------------------------------------------------

  /** How many characters have a code point of `bound` or more. */
  function CountFrom(s: string, bound: nat): nat {
    if s == "" then 0 else (if s[0] as int >= bound then 1 else 0) + CountFrom(s[1..], bound)
  }

  /** The size in UTF-8: one octet for each character, one more from U+0080, from U+0800 and
      from U+10000 on. */
  function Utf8Size(s: string): nat {
    |s| + CountFrom(s, 0x80) + CountFrom(s, 0x800) + CountFrom(s, 0x10000)
  }

  lemma {:induction false} Utf8LengthIsSize(s: string)
    ensures Utf8Length(s) == Utf8Size(s)
  {
    if s != "" {
      Utf8LengthIsSize(s[1..]);
    }
  }

  /** At most 900 octets, in angle brackets, with an `@` inside that has something on either
      side, and with no white space, control character or further bracket. */
  predicate IsThreadingId(s: string) {
    && Utf8Size(s) <= 900
    && |s| >= 5 && s[0] == '<' && s[|s| - 1] == '>'
    && (forall i :: 0 < i < |s| - 1 ==> !IsWhite(s[i]) && !IsControl(s[i]) && s[i] != '<' && s[i] != '>')
    && exists k :: 1 < k < |s| - 2 && s[k] == '@'
  }

  lemma ValidIsThreadingId(id: string)
    ensures IsValid(id) <==> IsThreadingId(id)
  {
    Utf8LengthIsSize(id);
    forall i | 0 <= i < |id|
      ensures (IsSpace(id[i]) <==> IsWhite(id[i])) && (IsStripped(id[i]) <==> IsControl(id[i]))
    {
      SpacesAreWhite(id[i]);
      StrippedAreControls(id[i]);
    }
  }

  /** The value between the brackets it lacks. */
  function Enclosed(value: string): string {
    (if value != "" && value[0] == '<' then "" else "<") + value
    + (if value != "" && value[|value| - 1] == '>' then "" else ">")
  }

  lemma EnclosedHasBrackets(value: string)
    ensures EnsureAngleBrackets(value) == Enclosed(value)
  {
  }

  /** Of a value without its control characters, and with the brackets it lacks, exactly those
      of that shape are accepted, and as they stand then. */
  lemma AcceptedExactly(value: string)
    ensures var id := Enclosed(Sanitize(value));
            ValidateMsgId(value) == if IsThreadingId(id) then Some(id) else None
  {
    EnclosedHasBrackets(Sanitize(value));
    BracketsAreClean(Sanitize(value));
    ValidIsThreadingId(Enclosed(Sanitize(value)));
  }

  /** Every string of a JMAP list is a candidate of its own, and nothing else in it is. */
  lemma ListEntryIsACandidate(entries: seq<Entry>, v: string)
    ensures ValidIds(Strings(entries + [Id(v)])) ==
              ValidIds(Strings(entries)) + if ValidateMsgId(v).Some? then [ValidateMsgId(v).value] else []
    ensures ValidIds(Strings(entries + [NotAString])) == ValidIds(Strings(entries))
    ensures ValidIds(Strings([])) == []
  {
    EntryAdds(entries, Id(v));
    EntryAdds(entries, NotAString);
    if Strip(v) == "" {
      BlankIsNoId(v);
    }
  }

  lemma BlankIsNoId(v: string)
    requires Strip(v) == ""
    ensures ValidateMsgId(v) == None
  {
    StripTrims(v);
    var i, j :| 0 <= i <= j <= |v| && Strip(v) == v[i..j] && AllSpace(v[..i]) && AllSpace(v[j..]);
    assert v == v[..i] + v[j..];
    forall m | 0 <= m < |v| ensures IsSpace(v[m]) {
    }
    SanitizedBlank(v);
    EnclosedHasBrackets(Sanitize(v));
    var id := EnsureAngleBrackets(Sanitize(v));
    assert forall m :: 0 < m < |id| - 1 ==> IsSpace(id[m]);
  }

  lemma {:induction false} SanitizedBlank(v: string)
    requires AllSpace(v)
    ensures AllSpace(Sanitize(v))
  {
    if v != "" {
      SanitizedBlank(v[1..]);
    }
  }

  // ------------------------------------------------------------------
  // Which source counts
  // ------------------------------------------------------------------

  predicate AreThreadingIds(ids: seq<string>) {
    forall i :: 0 <= i < |ids| ==> IsThreadingId(ids[i])
  }

  lemma AreValid(ids: seq<string>)
    requires AreThreadingIds(ids)
    ensures AllValid(ids)
  {
    forall i | 0 <= i < |ids| ensures IsValid(ids[i]) {
      ValidIsThreadingId(ids[i]);
    }
  }

  /** The ids as a JMAP list. */
  function Listed(ids: seq<string>): seq<Entry> {
    seq(|ids|, i requires 0 <= i < |ids| => Id(ids[i]))
  }

  lemma {:induction false} ListedIsAsEntries(ids: seq<string>)
    ensures Listed(ids) == AsEntries(ids)
  {
    if ids != [] {
      ListedIsAsEntries(ids[1..]);
      assert Listed(ids)[1..] == Listed(ids[1..]);
    }
  }

  /** Reading ids from a list or from a header gives them back. */
  lemma IdsAreTaken(ids: seq<string>)
    requires AreThreadingIds(ids)
    ensures ValidIds(Strings(Listed(ids))) == ids && ValidIds(Tokens(Join(ids, " "), "")) == ids
  {
    AreValid(ids);
    ListedIsAsEntries(ids);
    StringsOfEntries(ids);
    TokensOfJoin(ids);
    ValidIdsKeepsValid(ids);
  }

  lemma SingleIsTaken(id: string)
    requires IsThreadingId(id)
    ensures Checked(id) == [id] && Join([id], " ") == id
  {
    ValidIsThreadingId(id);
    ValidateIsIdempotent(id);
  }

  /** In-Reply-To comes from the parameter if there is one, else from the JMAP list if it is
      not empty, else from the header. */
  lemma ParentsInOrder(m: Input, ids: seq<string>)
    requires AreThreadingIds(ids) && ids != []
    requires || (m.parameter == ids[0] && |ids| == 1)
             || (m.parameter == "" && m.inReplyTo == Listed(ids))
             || (m.parameter == "" && m.inReplyTo == [] && m.inReplyToHeader == Join(ids, " "))
    ensures InReplyToIds(m) == ids && ThreadingHeaders(m).inReplyTo == Join(ids, " ")
  {
    assert IsThreadingId(ids[0]);
    if m.parameter == "" {
      IdsAreTaken(ids);
      assert |Listed(ids)| == |ids|;
    } else {
      SingleIsTaken(ids[0]);
      assert ids == [ids[0]];
    }
  }

  /** References come from the JMAP list if it is not empty, else from the header, and the last
      parent is put behind them unless it is there already. */
  lemma ReferencesInOrder(m: Input, ids: seq<string>, parents: seq<string>)
    requires AreThreadingIds(ids) && ids != [] && AreThreadingIds(parents) && InReplyToIds(m) == parents
    requires m.references == Listed(ids) || (m.references == [] && m.referencesHeader == Join(ids, " "))
    ensures ThreadingHeaders(m).references ==
              if parents == [] || parents[|parents| - 1] == ids[|ids| - 1] then Join(ids, " ")
              else Join(ids + [parents[|parents| - 1]], " ")
  {
    IdsAreTaken(ids);
    assert |Listed(ids)| == |ids|;
    assert ReferenceIds(m) == ids;
    if parents != [] {
      assert IsThreadingId(parents[|parents| - 1]);
    }
  }

  /** What comes later in that order changes nothing. */
  lemma LaterSourcesDoNotMatter(m: Input, list: seq<Entry>, header: string)
    ensures m.parameter != "" ==>
              ThreadingHeaders(m.(inReplyTo := list, inReplyToHeader := header)) == ThreadingHeaders(m)
    ensures m.inReplyTo != [] ==> ThreadingHeaders(m.(inReplyToHeader := header)) == ThreadingHeaders(m)
    ensures m.references != [] ==> ThreadingHeaders(m.(referencesHeader := header)) == ThreadingHeaders(m)
  {
  }
}
