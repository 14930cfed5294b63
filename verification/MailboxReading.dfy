/** A printed mailbox as any reader of section 3.4 of RFC 5322 takes it apart: a phrase, and
    one address in angle brackets. */
module MailboxReading {
  import opened Text
  import opened AddrSpec
  import opened Mailboxes

  // ------------------------------------------------------------------
  // Complete quoted-strings
  // ------------------------------------------------------------------

  /** How many backslashes stand in front of position `i`, in a row. */
  function Backslashes(s: string, i: nat): (n: nat)
    requires i <= |s|
    ensures n <= i
  {
    if i == 0 || s[i - 1] != '\\' then 0 else 1 + Backslashes(s, i - 1)
  }

  /** A pair of quotes around text in which every quote is escaped, and whose last backslash
      does not escape the closing one. */
  predicate IsCompleteQuotedString(s: string) {
    && |s| >= 2 && s[0] == '"' && s[|s| - 1] == '"'
    && (forall i :: 0 < i < |s| - 1 && s[i] == '"' ==> Backslashes(s, i) % 2 == 1)
    && Backslashes(s, |s| - 1) % 2 == 0
  }

  lemma {:induction false} BackslashesAfter(a: string, b: string, i: nat)
    requires i <= |b| && (a == "" || a[|a| - 1] != '\\' || Backslashes(a, |a|) % 2 == 0)
    ensures Backslashes(a + b, |a| + i) % 2 == Backslashes(b, i) % 2
    decreases i
  {
    if i > 0 {
      BackslashesAfter(a, b, i - 1);
      assert (a + b)[|a| + i - 1] == b[i - 1];
    } else {
      BackslashesPrefix(a, b, |a|);
    }
  }

  lemma {:induction false} BackslashesPrefix(a: string, b: string, i: nat)
    requires i <= |a|
    ensures Backslashes(a + b, i) == Backslashes(a, i)
    decreases i
  {
    if i > 0 {
      BackslashesPrefix(a, b, i - 1);
    }
  }

  /** Every quote in `s` is escaped, and `s` does not end in an escape that waits. */
  predicate EscapedWithin(s: string) {
    && (forall i :: 0 <= i < |s| && s[i] == '"' ==> Backslashes(s, i) % 2 == 1)
    && Backslashes(s, |s|) % 2 == 0
  }

  /** The walk over the escapes from the left decides what the count of the backslashes in
      front of each quote decides. */
  lemma {:induction false} WellQuotedByParity(s: string)
    ensures WellQuoted(s) <==> EscapedWithin(s)
    decreases |s|
  {
    if s == "" {
    } else if s[0] == '\\' {
      if |s| == 1 {
        assert Backslashes(s, 1) == 1 + Backslashes(s, 0);
      } else {
        WellQuotedByParity(s[2..]);
        ParityAfterEscape(s);
      }
    } else {
      WellQuotedByParity(s[1..]);
      ParityAfterPlain(s);
    }
  }

  lemma ParityAfterPlain(s: string)
    requires s != "" && s[0] != '\\'
    ensures EscapedWithin(s) <==> s[0] != '"' && EscapedWithin(s[1..])
  {
    var t := s[1..];
    forall i | 0 <= i <= |t| ensures Backslashes(s, i + 1) % 2 == Backslashes(t, i) % 2 {
      assert s == s[..1] + t;
      BackslashesAfter(s[..1], t, i);
    }
    assert Backslashes(s, 0) == 0;
    if EscapedWithin(s) {
      forall i | 0 <= i < |t| && t[i] == '"' ensures Backslashes(t, i) % 2 == 1 {
        assert s[i + 1] == '"';
      }
    }
  }

  lemma ParityAfterEscape(s: string)
    requires |s| > 1 && s[0] == '\\'
    ensures EscapedWithin(s) <==> EscapedWithin(s[2..])
  {
    var t := s[2..];
    assert Backslashes(s, 1) == 1;
    assert s == s[..2] + t;
    BackslashesPrefix(s[..2], t, 2);
    forall i | 0 <= i <= |t| ensures Backslashes(s, i + 2) % 2 == Backslashes(t, i) % 2 {
      BackslashesAfter(s[..2], t, i);
    }
    if EscapedWithin(s) {
      forall i | 0 <= i < |t| && t[i] == '"' ensures Backslashes(t, i) % 2 == 1 {
        assert s[i + 2] == '"';
      }
    }
    if EscapedWithin(t) {
      forall i | 0 <= i < |s| && s[i] == '"' ensures Backslashes(s, i) % 2 == 1 {
        if i >= 2 {
          assert t[i - 2] == '"';
        }
      }
    }
  }

  lemma QuotedByParity(s: string)
    requires |s| >= 2 && s[0] == '"' && s[|s| - 1] == '"'
    ensures WellQuoted(s[1..|s| - 1]) <==> IsCompleteQuotedString(s)
  {
    var t := s[1..|s| - 1];
    WellQuotedByParity(t);
    assert s == ("\"" + t) + "\"";
    forall i | 0 <= i <= |t| ensures Backslashes(s, i + 1) % 2 == Backslashes(t, i) % 2 {
      BackslashesAfter("\"", t, i);
      BackslashesPrefix("\"" + t, "\"", i + 1);
    }
    if EscapedWithin(t) {
      forall i | 0 < i < |s| - 1 && s[i] == '"' ensures Backslashes(s, i) % 2 == 1 {
        assert t[i - 1] == '"';
      }
    }
    if IsCompleteQuotedString(s) {
      forall i | 0 <= i < |t| && t[i] == '"' ensures Backslashes(t, i) % 2 == 1 {
        assert s[i + 1] == '"';
      }
    }
  }

  // ------------------------------------------------------------------
  // The phrase
  // ------------------------------------------------------------------

  /** `a` stands right in front of `b` somewhere in `s`. */
  predicate HasPair(s: string, a: char, b: char) {
    exists i :: 0 <= i < |s| - 1 && s[i] == a && s[i + 1] == b
  }

  lemma {:induction false} ContainsMeansHasPair(s: string, a: char, b: char)
    ensures Contains(s, [a, b]) <==> HasPair(s, a, b)
  {
    if [a, b] <= s {
      assert s[0] == a && s[1] == b;
    } else if s != "" {
      ContainsMeansHasPair(s[1..], a, b);
      if i :| 0 <= i < |s| - 1 && s[i] == a && s[i + 1] == b {
        if i == 0 {
          assert s[..2] == [a, b];
        } else {
          assert s[1..][i - 1] == a && s[1..][i - 1 + 1] == b;
        }
      }
      if i :| 0 <= i < |s[1..]| - 1 && s[1..][i] == a && s[1..][i + 1] == b {
        assert s[i + 1] == a && s[i + 1 + 1] == b;
      }
    }
  }

  /** A phrase no reader takes for anything else: one complete quoted-string, or text with
      none of the specials of section 3.2.3 of RFC 5322 that does not look like an
      encoded-word. */
  predicate IsSafePhrase(phrase: string) {
    || IsCompleteQuotedString(phrase)
    || (&& (forall i :: 0 <= i < |phrase| ==>
              phrase[i] !in ['(', ')', '<', '>', '[', ']', ':', ';', '@', '\\', ',', '.', '"'])
        && !(HasPair(phrase, '=', '?') && HasPair(phrase, '?', '=')))
  }

  lemma ShownIsSafe(clean: string)
    ensures IsSafePhrase(Shown(clean))
  {
    var shown := Shown(clean);
    if NeedsQuoting(clean) {
      if !AlreadyQuoted(clean) {
        EscapeIsWellQuoted(clean);
        assert shown[1..|shown| - 1] == Escape(clean);
      }
      QuotedByParity(shown);
    } else {
      ContainsMeansHasPair(clean, '=', '?');
      ContainsMeansHasPair(clean, '?', '=');
    }
  }

  /** Whatever the name and the address: a printed mailbox is the address alone, or a safe
      phrase, a blank and the address in angle brackets.  A name without specials that does
      not look like an encoded-word, or that is a complete quoted-string already, stands as
      it is; any other is quoted and reads back as it was. */
  lemma PhraseIsSafe(name: string, email: string)
    requires FormatAddress(name, email) != ""
    ensures var s, addr, clean := FormatAddress(name, email), Strip(email), Sanitize(name);
            if clean == "" then s == addr
            else
              |s| >= |addr| + 3 && s[|s| - |addr| - 3..] == " <" + addr + ">" &&
              var phrase := s[..|s| - |addr| - 3];
              && IsSafePhrase(phrase)
              && (IsSafePhrase(clean) ==> phrase == clean)
              && (!IsSafePhrase(clean) ==> phrase[0] == '"' && Unescape(phrase[1..|phrase| - 1]) == clean)
  {
    var s, addr, clean := FormatAddress(name, email), Strip(email), Sanitize(name);
    if clean != "" {
      ShownIsSafe(clean);
      assert s == Shown(clean) + (" <" + addr + ">");
      assert s[..|s| - |addr| - 3] == Shown(clean);
      SafeStaysAsItIs(clean);
    }
  }

  lemma SafeStaysAsItIs(clean: string)
    ensures IsSafePhrase(clean) ==> Shown(clean) == clean
    ensures !IsSafePhrase(clean) ==>
              var shown := Shown(clean);
              |shown| >= 2 && shown[0] == '"' && Unescape(shown[1..|shown| - 1]) == clean
  {
    ContainsMeansHasPair(clean, '=', '?');
    ContainsMeansHasPair(clean, '?', '=');
    EscapeIsWellQuoted(clean);
    if IsQuotedString(clean) {
      QuotedByParity(clean);
    }
    var quoted := "\"" + Escape(clean) + "\"";
    assert quoted[1..|quoted| - 1] == Escape(clean);
  }

  // ------------------------------------------------------------------
  // What counts as an address
  // ------------------------------------------------------------------

  predicate IsToken(s: string) {
    forall i :: 0 <= i < |s| ==>
      && !IsWhite(s[i])
      && s[i] !in ['(', ')', '<', '>', '[', ']', ':', ';', '@', '\\', ',', '"']
  }

  predicate IsDomainLiteral(s: string) {
    && |s| >= 2 && s[0] == '[' && s[|s| - 1] == ']'
    && forall i :: 0 < i < |s| - 1 ==> !IsWhite(s[i]) && s[i] !in ['[', ']', '\\', ',', '(', ')']
  }

  /** The `@` at `at` is the last one, between two parts that are not empty: a token or a
      complete quoted-string, and a token or a domain-literal. */
  predicate SplitsAt(addr: string, at: nat) {
    && 0 < at < |addr| - 1 && addr[at] == '@'
    && (forall i :: at < i < |addr| ==> addr[i] != '@')
    && (IsToken(addr[..at]) || IsCompleteQuotedString(addr[..at]))
    && (IsToken(addr[at + 1..]) || IsDomainLiteral(addr[at + 1..]))
  }

  lemma {:induction false} LastIndexIsLast(s: string, c: char, i: nat)
    requires i < |s| && s[i] == c && forall j :: i < j < |s| ==> s[j] != c
    ensures LastIndex(s, c) == i
  {
    if s[|s| - 1] != c {
      LastIndexIsLast(s[..|s| - 1], c, i);
    }
  }

  lemma {:induction false} NoneAfterLastIndex(s: string, c: char)
    ensures forall j :: LastIndex(s, c) < j < |s| ==> s[j] != c
  {
    if s != "" && s[|s| - 1] != c {
      NoneAfterLastIndex(s[..|s| - 1], c);
      forall j | LastIndex(s, c) < j < |s| ensures s[j] != c {
        assert j < |s| - 1 ==> s[..|s| - 1][j] != c;
      }
    }
  }

  lemma LocalPartIs(local: string)
    requires local != ""
    ensures IsValidLocalPart(local) <==> IsToken(local) || IsCompleteQuotedString(local)
  {
    if IsQuotedString(local) {
      QuotedByParity(local);
    }
  }

  lemma DomainIs(domain: string)
    requires domain != ""
    ensures IsValidDomain(domain) <==> IsToken(domain) || IsDomainLiteral(domain)
  {
    if IsLiteral(domain) {
      var inner := domain[1..|domain| - 1];
      assert forall i :: 0 < i < |domain| - 1 ==> domain[i] == inner[i - 1];
      assert forall i :: 0 <= i < |inner| ==> inner[i] == domain[i + 1];
    }
  }

  /** Exactly what is taken for one address: no control character, and a last `@` that splits
      it into a local part and a domain of the right shapes. */
  lemma ValidAddressesAre(addr: string)
    ensures IsValidAddrSpec(addr) <==>
              (forall i :: 0 <= i < |addr| ==> !IsControl(addr[i])) && exists at: nat :: SplitsAt(addr, at)
  {
    if exists at: nat :: SplitsAt(addr, at) {
      var at: nat :| SplitsAt(addr, at);
      assert addr[at] == '@';
      LastIndexIsLast(addr, '@', at);
      LocalPartIs(addr[..at]);
      DomainIs(addr[at + 1..]);
    }
    if IsValidAddrSpec(addr) {
      NoneAfterLastIndex(addr, '@');
      var at := LastIndex(addr, '@');
      LocalPartIs(addr[..at]);
      DomainIs(addr[at + 1..]);
      assert SplitsAt(addr, at);
    }
  }

  // ------------------------------------------------------------------
  // One pair of angle brackets
  // ------------------------------------------------------------------

  datatype Reading = Plain | InQuotes | AfterBackslash | InLiteral

  function Next(q: Reading, c: char): Reading {
    match q
    case Plain => if c == '"' then InQuotes else if c == '[' then InLiteral else Plain
    case InQuotes => if c == '\\' then AfterBackslash else if c == '"' then Plain else InQuotes
    case AfterBackslash => InQuotes
    case InLiteral => if c == ']' then Plain else InLiteral
  }

  /** What is left of `s` without quoted-strings and domain-literals. */
  function Outside(s: string, q: Reading): string {
    if s == "" then ""
    else (if q.Plain? && Next(q, s[0]).Plain? then [s[0]] else "") + Outside(s[1..], Next(q, s[0]))
  }

  function After(s: string, q: Reading): Reading {
    if s == "" then q else After(s[1..], Next(q, s[0]))
  }

  lemma {:induction false} OutsideConcat(a: string, b: string, q: Reading)
    ensures Outside(a + b, q) == Outside(a, q) + Outside(b, After(a, q))
    ensures After(a + b, q) == After(b, After(a, q))
    decreases a
  {
    if a == "" {
      assert a + b == b;
    } else {
      assert (a + b)[0] == a[0] && (a + b)[1..] == a[1..] + b;
      OutsideConcat(a[1..], b, Next(q, a[0]));
    }
  }

  lemma {:induction false} PlainOutside(s: string)
    requires Lacks(s, {'"', '['})
    ensures Outside(s, Plain) == s && After(s, Plain) == Plain
  {
    if s != "" {
      PlainOutside(s[1..]);
      assert s == [s[0]] + s[1..];
    }
  }

  lemma {:induction false} InteriorOutside(s: string)
    requires WellQuoted(s)
    ensures Outside(s, InQuotes) == "" && After(s, InQuotes) == InQuotes
    decreases |s|
  {
    if s == "" {
    } else if s[0] == '\\' {
      InteriorOutside(s[2..]);
      assert s[1..][1..] == s[2..];
      assert Outside(s[1..], AfterBackslash) == Outside(s[2..], InQuotes);
    } else {
      InteriorOutside(s[1..]);
    }
  }

  lemma {:induction false} LiteralOutside(s: string)
    requires Lacks(s, {']'})
    ensures Outside(s, InLiteral) == "" && After(s, InLiteral) == InLiteral
  {
    if s != "" {
      LiteralOutside(s[1..]);
    }
  }

  lemma OneOutside(c: char, q: Reading)
    ensures Outside([c], q) == (if q.Plain? && Next(q, c).Plain? then [c] else "")
    ensures After([c], q) == Next(q, c)
  {
    assert [c][1..] == "";
  }

  lemma QuotedOutside(interior: string)
    requires WellQuoted(interior)
    ensures Outside("\"" + interior + "\"", Plain) == "" && After("\"" + interior + "\"", Plain) == Plain
  {
    OneOutside('"', Plain);
    OneOutside('"', InQuotes);
    InteriorOutside(interior);
    OutsideConcat("\"", interior, Plain);
    OutsideConcat("\"" + interior, "\"", Plain);
  }

  /** Without an angle bracket outside quoted-strings and domain-literals, and not ending
      inside one. */
  ghost predicate NoAngles(s: string) {
    After(s, Plain) == Plain && '<' !in Outside(s, Plain) && '>' !in Outside(s, Plain)
  }

  lemma NoAnglesConcat(a: string, b: string)
    requires NoAngles(a) && NoAngles(b)
    ensures NoAngles(a + b)
  {
    OutsideConcat(a, b, Plain);
  }

  lemma ShownHasNoAngles(clean: string)
    ensures NoAngles(Shown(clean))
  {
    if NeedsQuoting(clean) && !AlreadyQuoted(clean) {
      EscapeIsWellQuoted(clean);
      QuotedOutside(Escape(clean));
    } else if AlreadyQuoted(clean) {
      assert clean == "\"" + clean[1..|clean| - 1] + "\"";
      QuotedOutside(clean[1..|clean| - 1]);
    } else {
      PlainOutside(clean);
    }
  }

  lemma LocalHasNoAngles(local: string)
    requires IsValidLocalPart(local)
    ensures NoAngles(local)
  {
    if IsQuotedString(local) {
      assert local == "\"" + local[1..|local| - 1] + "\"";
      QuotedOutside(local[1..|local| - 1]);
    } else {
      PlainOutside(local);
    }
  }

  lemma DomainHasNoAngles(domain: string)
    requires IsValidDomain(domain)
    ensures NoAngles(domain)
  {
    if IsLiteral(domain) {
      var interior := domain[1..|domain| - 1];
      assert domain == "[" + interior + "]";
      OneOutside('[', Plain);
      OneOutside(']', InLiteral);
      LiteralOutside(interior);
      OutsideConcat("[", interior, Plain);
      OutsideConcat("[" + interior, "]", Plain);
    } else {
      PlainOutside(domain);
    }
  }

  lemma AddrHasNoAngles(addr: string)
    requires IsValidAddrSpec(addr)
    ensures NoAngles(addr)
  {
    AddrParts(addr);
    LocalHasNoAngles(LocalPart(addr));
    DomainHasNoAngles(Domain(addr));
    PlainOutside("@");
    NoAnglesConcat(LocalPart(addr), "@");
    NoAnglesConcat(LocalPart(addr) + "@", Domain(addr));
  }

  /** Outside quoted-strings and domain-literals a printed mailbox with a name has exactly one
      `<` and one `>`, in that order, and one without a name has none.  The name cannot bring
      in a second address. */
  lemma OneAnglePair(name: string, email: string)
    requires FormatAddress(name, email) != ""
    ensures var s := FormatAddress(name, email);
            && After(s, Plain) == Plain
            && (Sanitize(name) == "" ==> '<' !in Outside(s, Plain) && '>' !in Outside(s, Plain))
            && (Sanitize(name) != "" ==>
                  exists before, within :: Outside(s, Plain) == before + "<" + within + ">"
                    && '<' !in before && '>' !in before && '<' !in within && '>' !in within)
  {
    var addr, clean := Strip(email), Sanitize(name);
    AddrHasNoAngles(addr);
    if clean != "" {
      ShownHasNoAngles(clean);
      PlainOutside(" ");
      NoAnglesConcat(Shown(clean), " ");
      AnglesAround(Shown(clean) + " ", addr);
      assert Shown(clean) + " <" == Shown(clean) + " " + "<";
    }
  }

  lemma AnglesAround(before: string, within: string)
    requires NoAngles(before) && NoAngles(within)
    ensures After(before + "<" + within + ">", Plain) == Plain
    ensures Outside(before + "<" + within + ">", Plain) == Outside(before, Plain) + "<" + Outside(within, Plain) + ">"
  {
    PlainOutside("<");
    PlainOutside(">");
    OutsideConcat(before, "<", Plain);
    OutsideConcat(before + "<", within, Plain);
    OutsideConcat(before + "<" + within, ">", Plain);
  }

  /** A printed list has one entry for each record with an address, in order, and none for
      anything else. */
  lemma OneEntryPerRecord(addresses: seq<Address>, name: string, email: string)
    ensures Formatted([]) == []
    ensures Formatted(addresses + [Address(name, email)]) ==
              Formatted(addresses) + if email == "" then [] else [FormatAddress(name, email)]
    ensures Formatted(addresses + [NotARecord]) == Formatted(addresses)
  {
    FormattedSnoc(addresses, Address(name, email));
    FormattedSnoc(addresses, NotARecord);
    assert Formatted(addresses) + [] == Formatted(addresses);
  }
}
