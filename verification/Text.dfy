/** String operations of the Python library that the header code leans on. */
module Text {

  /** Python's `str.isspace` for one character, which is also `\s` in a regular expression. */
  predicate IsSpace(c: char) {
    || '\t' <= c <= '\r'
    || '\U{1C}' <= c <= ' '
    || c == '\U{85}' || c == '\U{A0}' || c == '\U{1680}'
    || '\U{2000}' <= c <= '\U{200A}'
    || c == '\U{2028}' || c == '\U{2029}' || c == '\U{202F}' || c == '\U{205F}' || c == '\U{3000}'
  }

  predicate AllSpace(s: string) {
    forall i :: 0 <= i < |s| ==> IsSpace(s[i])
  }

  predicate NoSpace(s: string) {
    forall i :: 0 <= i < |s| ==> !IsSpace(s[i])
  }

  /** None of the characters of `s` is in `chars`. */
  predicate Lacks(s: string, chars: set<char>) {
    forall i :: 0 <= i < |s| ==> s[i] !in chars
  }

  function StripLeft(s: string): string {
    if s != "" && IsSpace(s[0]) then StripLeft(s[1..]) else s
  }

  function StripRight(s: string): string {
    if s != "" && IsSpace(s[|s| - 1]) then StripRight(s[..|s| - 1]) else s
  }

  /** `str.strip()`. */
  function Strip(s: string): string {
    StripRight(StripLeft(s))
  }

  /** Neither end of `s` is a space. */
  predicate Trimmed(s: string) {
    s != "" ==> !IsSpace(s[0]) && !IsSpace(s[|s| - 1])
  }

  lemma {:induction false} StripLeftTrims(s: string)
    ensures var r := StripLeft(s);
            && (r != "" ==> !IsSpace(r[0]))
            && |r| <= |s| && r == s[|s| - |r|..] && AllSpace(s[..|s| - |r|])
  {
    if s != "" && IsSpace(s[0]) {
      StripLeftTrims(s[1..]);
      var r := StripLeft(s[1..]);
      var k := |s| - 1 - |r|;
      assert s[1..][k..] == s[k + 1..];
      assert s[..k + 1] == [s[0]] + s[1..][..k];
    }
  }

  lemma {:induction false} StripRightTrims(s: string)
    ensures var r := StripRight(s);
            && (r != "" ==> !IsSpace(r[|r| - 1]))
            && r <= s && AllSpace(s[|r|..])
  {
    if s != "" && IsSpace(s[|s| - 1]) {
      StripRightTrims(s[..|s| - 1]);
    }
  }

  /** Stripping removes exactly the spaces at the two ends. */
  lemma StripTrims(s: string)
    ensures Trimmed(Strip(s))
    ensures exists i, j :: 0 <= i <= j <= |s| && Strip(s) == s[i..j] && AllSpace(s[..i]) && AllSpace(s[j..])
  {
    StripLeftTrims(s);
    var l := StripLeft(s);
    StripRightTrims(l);
    var i := |s| - |l|;
    var j := i + |Strip(s)|;
    assert Strip(s) == s[i..j] && AllSpace(s[..i]) && AllSpace(s[j..]);
  }

  lemma StripFixed(s: string)
    requires Trimmed(s)
    ensures Strip(s) == s
  {
  }

  /** `sep.join(items)`. */
  function Join(items: seq<string>, sep: string): string {
    if items == [] then ""
    else if |items| == 1 then items[0]
    else items[0] + sep + Join(items[1..], sep)
  }

  /** What `pick` takes from each value, in order. */
  function FlatMap(pick: string -> seq<string>, values: seq<string>): seq<string> {
    if values == [] then [] else pick(values[0]) + FlatMap(pick, values[1..])
  }

  lemma {:induction false} FlatMapConcat(pick: string -> seq<string>, a: seq<string>, b: seq<string>)
    ensures FlatMap(pick, a + b) == FlatMap(pick, a) + FlatMap(pick, b)
    decreases a
  {
    if a == [] {
      assert a + b == b;
    } else {
      assert (a + b)[0] == a[0] && (a + b)[1..] == a[1..] + b;
      FlatMapConcat(pick, a[1..], b);
    }
  }

  lemma {:induction false} FlatMapSingles(pick: string -> seq<string>, values: seq<string>, results: seq<string>)
    requires |values| == |results| && forall i :: 0 <= i < |values| ==> pick(values[i]) == [results[i]]
    ensures FlatMap(pick, values) == results
  {
    if values != [] {
      FlatMapSingles(pick, values[1..], results[1..]);
      assert results == [results[0]] + results[1..];
    }
  }

  lemma FlatMapOne(pick: string -> seq<string>, v: string)
    ensures FlatMap(pick, [v]) == pick(v)
  {
    assert [v][1..] == [];
    assert pick(v) + [] == pick(v);
  }

  lemma StripLeadingBlank(s: string)
    requires s != "" && Trimmed(s)
    ensures Strip(" " + s) == s
  {
    assert (" " + s)[1..] == s;
    assert StripLeft(" " + s) == StripLeft(s) == s;
  }

  /** `s.replace(c, with)` for a single character `c`. */
  function Replace(s: string, c: char, with: string): string {
    if s == "" then ""
    else (if s[0] == c then with else [s[0]]) + Replace(s[1..], c, with)
  }

  predicate Contains(s: string, sub: string) {
    sub <= s || (s != "" && Contains(s[1..], sub))
  }

  predicate StartsWith(s: string, c: char) {
    s != "" && s[0] == c
  }

  predicate EndsWith(s: string, c: char) {
    s != "" && s[|s| - 1] == c
  }

  /** Position of the last `c`, or -1. */
  function LastIndex(s: string, c: char): (r: int)
    ensures -1 <= r < |s|
    ensures c in s <==> r >= 0
    ensures r >= 0 ==> s[r] == c
  {
    if s == "" then -1
    else if s[|s| - 1] == c then |s| - 1
    else LastIndex(s[..|s| - 1], c)
  }

  /** Characters the composer removes from every header value: controls other than TAB,
      and the Unicode line terminators. */
  predicate IsStripped(c: char) {
    || (c < ' ' && c != '\t')
    || c == '\U{7F}' || c == '\U{85}' || c == '\U{2028}' || c == '\U{2029}'
  }

  predicate Clean(s: string) {
    forall i :: 0 <= i < |s| ==> !IsStripped(s[i])
  }

  /** `_sanitize_header_value`. */
  function Sanitize(s: string): (r: string)
    ensures Clean(r)
    ensures Clean(s) ==> r == s
  {
    if s == "" then ""
    else if IsStripped(s[0]) then Sanitize(s[1..])
    else [s[0]] + Sanitize(s[1..])
  }

  // ------------------------------------------------------------------
  // The same by code point
  // ------------------------------------------------------------------

  /** The code points Python counts as white space. */
  predicate IsWhite(c: char) {
    || c as int in {9, 10, 11, 12, 13, 28, 29, 30, 31, 32, 133, 160, 5760}
    || c as int in {8192, 8193, 8194, 8195, 8196, 8197, 8198, 8199, 8200, 8201, 8202}
    || c as int in {8232, 8233, 8239, 8287, 12288}
  }

  lemma SpacesAreWhite(c: char)
    ensures IsSpace(c) <==> IsWhite(c)
  {
  }

  /** The code points that end a line or control a terminal, the tab excepted. */
  predicate IsControl(c: char) {
    (c as int < 32 && c as int != 9) || c as int in {127, 133, 8232, 8233}
  }

  lemma StrippedAreControls(c: char)
    ensures IsStripped(c) <==> IsControl(c)
  {
  }

  lemma {:induction false} SanitizeConcat(a: string, b: string)
    ensures Sanitize(a + b) == Sanitize(a) + Sanitize(b)
  {
    if a == "" {
      assert a + b == b;
    } else {
      assert (a + b)[0] == a[0] && (a + b)[1..] == a[1..] + b;
      SanitizeConcat(a[1..], b);
    }
  }

  /** Sanitizing takes out the control characters and nothing else, wherever they stand. */
  lemma SanitizeTakesOutControls(before: string, c: char, after: string)
    ensures Sanitize(before + [c] + after) ==
              Sanitize(before) + (if IsControl(c) then "" else [c]) + Sanitize(after)
    ensures Sanitize("") == ""
  {
    SanitizeConcat(before + [c], after);
    SanitizeConcat(before, [c]);
    assert [c][1..] == "";
  }
}
