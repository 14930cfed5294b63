/** The unclosed-comment test the address parser runs on a whole header value. */
module UnclosedComments {
  import opened Text
  import opened AddrSpec
  import opened Mailboxes

  datatype Reader = Reader(depth: nat, inQuotes: bool, escaped: bool)

  const OPEN := Reader(0, false, false)
  const IN_QUOTES := Reader(0, true, false)

  function Read1(r: Reader, c: char): Reader {
    if r.escaped then r.(escaped := false)
    else if c == '\\' then r.(escaped := true)
    else if c == '"' then r.(inQuotes := !r.inQuotes)
    else if r.inQuotes then r
    else if c == '(' then r.(depth := r.depth + 1)
    else if c == ')' && r.depth > 0 then r.(depth := r.depth - 1)
    else r
  }

  function Read(s: string, r: Reader): Reader {
    if s == "" then r else Read(s[1..], Read1(r, s[0]))
  }

  method HasUnclosedComment(value: string) returns (unclosed: bool)
    ensures unclosed == (Read(value, OPEN).depth > 0)
  {
    var depth, inQuotes, index := 0, false, 0;
    while index < |value|
      invariant 0 <= index <= |value| + 1
      invariant depth >= 0
      invariant index <= |value| ==> Read(value[index..], Reader(depth, inQuotes, false)) == Read(value, OPEN)
      invariant index > |value| ==> depth == Read(value, OPEN).depth
    {
      var ch := value[index];
      assert value[index..][1..] == value[index + 1..];
      if ch == '\\' {
        if index + 1 < |value| {
          assert value[index + 1..][1..] == value[index + 2..];
        }
        index := index + 2;
        continue;
      }
      if ch == '"' {
        inQuotes := !inQuotes;
      } else if !inQuotes {
        if ch == '(' {
          depth := depth + 1;
        } else if ch == ')' && depth > 0 {
          depth := depth - 1;
        }
      }
      index := index + 1;
    }
    return depth > 0;
  }

  lemma {:induction false} ReadConcat(a: string, b: string, r: Reader)
    ensures Read(a + b, r) == Read(b, Read(a, r))
    decreases a
  {
    if a == "" {
      assert a + b == b;
    } else {
      assert (a + b)[1..] == a[1..] + b;
      ReadConcat(a[1..], b, Read1(r, a[0]));
    }
  }

  lemma {:induction false} PlainIsRead(s: string, r: Reader)
    requires Lacks(s, {'"', '(', ')', '\\'}) && !r.escaped
    ensures Read(s, r) == r
  {
    if s != "" {
      PlainIsRead(s[1..], r);
    }
  }

  lemma {:induction false} WellQuotedIsRead(s: string, r: Reader)
    requires WellQuoted(s) && r.inQuotes && !r.escaped
    ensures Read(s, r) == r
    decreases |s|
  {
    if s == "" {
    } else if s[0] == '\\' {
      assert s[1..][0] == s[1] && s[1..][1..] == s[2..];
      WellQuotedIsRead(s[2..], r);
    } else {
      WellQuotedIsRead(s[1..], r);
    }
  }

  /** The paren depth after the interior of a quoted-string, read as if it were not quoted:
      from depth `d`, and passing over escaped characters. */
  function Nest(s: string, d: nat): nat
    decreases |s|
  {
    if s == "" then d
    else if s[0] == '\\' && |s| > 1 then Nest(s[2..], d)
    else Nest(s[1..], if s[0] == '(' then d + 1 else if s[0] == ')' && d > 0 then d - 1 else d)
  }

  lemma {:induction false} NestConcat(a: string, b: string, d: nat)
    requires WellQuoted(a)
    ensures Nest(a + b, d) == Nest(b, Nest(a, d))
    decreases |a|
  {
    var s := a + b;
    if a == "" {
      assert s == b;
    } else if a[0] == '\\' {
      assert s[0] == a[0] && s[2..] == a[2..] + b;
      NestConcat(a[2..], b, d);
    } else {
      assert s[0] == a[0] && s[1..] == a[1..] + b;
      NestConcat(a[1..], b, if a[0] == '(' then d + 1 else if a[0] == ')' && d > 0 then d - 1 else d);
    }
  }

  lemma {:induction false} InteriorIsNested(s: string, d: nat)
    requires WellQuoted(s)
    ensures Read(s, Reader(d, false, false)) == Reader(Nest(s, d), false, false)
    decreases |s|
  {
    var r := Reader(d, false, false);
    if s == "" {
    } else if s[0] == '\\' {
      assert s[1..][0] == s[1] && s[1..][1..] == s[2..];
      assert Read(s, r) == Read(s[1..], r.(escaped := true)) == Read(s[2..], r);
      InteriorIsNested(s[2..], d);
    } else {
      InteriorIsNested(s[1..], Read1(r, s[0]).depth);
    }
  }

  /** What the interior of a quoted-string does to the reader: nothing, unless an unpaired
      quote before it has turned the reader inside out. */
  function Met(interior: string, r: Reader): Reader {
    if r.inQuotes then r.(depth := Nest(interior, r.depth)) else r
  }

  lemma QuotedIsRead(interior: string, r: Reader)
    requires WellQuoted(interior) && !r.escaped
    ensures Read("\"" + interior + "\"", r) == Met(interior, r)
  {
    var within := r.(inQuotes := !r.inQuotes);
    assert ['"'] + (interior + "\"") == "\"" + interior + "\"";
    ReadOne('"', interior + "\"", r);
    ReadConcat(interior, "\"", within);
    if r.inQuotes {
      InteriorIsNested(interior, r.depth);
    } else {
      WellQuotedIsRead(interior, within);
    }
    CloseIsRead(Read(interior, within));
  }

  lemma CloseIsRead(r: Reader)
    requires !r.escaped
    ensures Read("\"", r) == r.(inQuotes := !r.inQuotes)
  {
    assert "\""[1..] == "";
  }

  function Quotes(s: string): nat {
    if s == "" then 0 else (if s[0] == '"' then 1 else 0) + Quotes(s[1..])
  }

  predicate OddQuotes(s: string) {
    Quotes(s) % 2 == 1
  }

  /** Inside a domain-literal only the quotes count, and each one toggles. */
  lemma {:induction false} LiteralToggles(s: string, r: Reader)
    requires Lacks(s, {'(', ')', '\\'}) && !r.escaped
    ensures Read(s, r) == r.(inQuotes := r.inQuotes != OddQuotes(s))
  {
    if s != "" {
      LiteralToggles(s[1..], Read1(r, s[0]));
    }
  }

  /** What stands between the quotes of a local part; "" if it is not quoted. */
  function LocalInterior(local: string): string {
    if IsQuotedString(local) then local[1..|local| - 1] else ""
  }

  lemma LocalIsRead(local: string, r: Reader)
    requires IsValidLocalPart(local) && !r.escaped
    ensures WellQuoted(LocalInterior(local))
    ensures Read(local, r) == Met(LocalInterior(local), r)
  {
    if IsQuotedString(local) {
      assert local == "\"" + local[1..|local| - 1] + "\"";
      QuotedIsRead(local[1..|local| - 1], r);
    } else {
      PlainIsRead(local, r);
    }
  }

  lemma DomainIsRead(domain: string, r: Reader)
    requires IsValidDomain(domain) && !r.escaped
    ensures Read(domain, r) == r.(inQuotes := r.inQuotes != OddQuotes(domain))
  {
    if IsLiteral(domain) {
      assert domain == "[" + domain[1..|domain| - 1] + "]";
    }
    LiteralToggles(domain, r);
  }

  /** An address leaves the quoting as it was exactly when its domain holds an even number of
      quotes, and the depth as it was unless its local part is read inside out. */
  lemma AddrSpecIsRead(addr: string, r: Reader)
    requires IsValidAddrSpec(addr) && !r.escaped
    ensures Read(addr, r)
         == Met(LocalInterior(LocalPart(addr)), r).(inQuotes := r.inQuotes != OddQuotes(Domain(addr)))
  {
    var local, domain := LocalPart(addr), Domain(addr);
    AddrParts(addr);
    LocalIsRead(local, r);
    PlainIsRead("@", Read(local, r));
    DomainIsRead(domain, Read(local, r));
    ReadConcat(local, "@", r);
    ReadConcat(local + "@", domain, r);
  }

  /** What stands between the quotes of a name as it is written; "" if it is not quoted. */
  function NameInterior(clean: string): string {
    if AlreadyQuoted(clean) then clean[1..|clean| - 1]
    else if NeedsQuoting(clean) then Escape(clean)
    else ""
  }

  lemma ShownIsRead(clean: string, r: Reader)
    requires !r.escaped
    ensures WellQuoted(NameInterior(clean))
    ensures Read(Shown(clean), r) == Met(NameInterior(clean), r)
  {
    if AlreadyQuoted(clean) {
      assert clean == "\"" + clean[1..|clean| - 1] + "\"";
      QuotedIsRead(clean[1..|clean| - 1], r);
    } else if NeedsQuoting(clean) {
      EscapeIsWellQuoted(clean);
      QuotedIsRead(Escape(clean), r);
    } else {
      PlainIsRead(clean, r);
    }
  }

  // ------------------------------------------------------------------
  // What is read inside out
  // ------------------------------------------------------------------

  /** The element is printed as a mailbox, not as nothing. */
  predicate IsMailbox(a: Address) {
    a.Address? && a.email != "" && IsValidAddrSpec(Strip(a.email))
  }

  /** The quoted text of a mailbox: that of its name, then that of its local part. */
  function Interiors(a: Address): string
    requires IsMailbox(a)
  {
    NameInterior(Sanitize(a.name)) + LocalInterior(LocalPart(Strip(a.email)))
  }

  predicate Toggles(a: Address) {
    IsMailbox(a) && OddQuotes(Domain(Strip(a.email)))
  }

  /** The quoted text of the mailboxes that have an odd number of toggling ones before them,
      put together. */
  function Exposed(addresses: seq<Address>, insideOut: bool): string {
    if addresses == [] then ""
    else
      (if insideOut && IsMailbox(addresses[0]) then Interiors(addresses[0]) else "")
      + Exposed(addresses[1..], insideOut != Toggles(addresses[0]))
  }

  lemma MetTwice(a: string, b: string, r: Reader)
    requires WellQuoted(a)
    ensures Met(b, Met(a, r)) == Met(a + b, r)
  {
    NestConcat(a, b, r.depth);
  }

  lemma {:induction false} WellQuotedConcat(a: string, b: string)
    requires WellQuoted(a) && WellQuoted(b)
    ensures WellQuoted(a + b)
    decreases |a|
  {
    var s := a + b;
    if a == "" {
      assert s == b;
    } else if a[0] == '\\' {
      assert s[0] == a[0] && s[2..] == a[2..] + b;
      WellQuotedConcat(a[2..], b);
    } else {
      assert s[0] == a[0] && s[1..] == a[1..] + b;
      WellQuotedConcat(a[1..], b);
    }
  }

  lemma PlainTailIsRead(a: string, tail: string, r: Reader)
    requires !Read(a, r).escaped && Lacks(tail, {'"', '(', ')', '\\'})
    ensures Read(a + tail, r) == Read(a, r)
  {
    PlainIsRead(tail, Read(a, r));
    ReadConcat(a, tail, r);
  }

  lemma NamedMailboxIsRead(shown: string, addr: string, r: Reader)
    requires !Read(shown, r).escaped && !Read(addr, Read(shown, r)).escaped
    ensures Read(shown + " <" + addr + ">", r) == Read(addr, Read(shown, r))
  {
    PlainTailIsRead(shown, " <", r);
    ReadConcat(shown + " <", addr, r);
    PlainTailIsRead(shown + " <" + addr, ">", r);
  }

  lemma MailboxIsRead(a: Address, r: Reader)
    requires IsMailbox(a) && !r.escaped
    ensures WellQuoted(Interiors(a))
    ensures Read(FormatAddress(a.name, a.email), r) == Met(Interiors(a), r).(inQuotes := r.inQuotes != Toggles(a))
  {
    var addr, clean := Strip(a.email), Sanitize(a.name);
    var local := LocalInterior(LocalPart(addr));
    LocalIsRead(LocalPart(addr), r);
    ShownIsRead(clean, r);
    WellQuotedConcat(NameInterior(clean), local);
    MetTwice(NameInterior(clean), local, r);
    AddrSpecIsRead(addr, Met(NameInterior(clean), r));
    if clean == "" {
      assert FormatAddress(a.name, a.email) == addr;
    } else {
      NamedMailboxIsRead(Shown(clean), addr, r);
      assert FormatAddress(a.name, a.email) == Shown(clean) + " <" + addr + ">";
    }
  }

  /** What one element of the list, with the separator after it if any, does to the reader. */
  function After(a: Address, r: Reader): Reader {
    if IsMailbox(a) then Met(Interiors(a), r).(inQuotes := r.inQuotes != Toggles(a)) else r
  }

  lemma PrintedIsRead(a: Address, r: Reader)
    requires a.Address? && a.email != "" && !r.escaped
    ensures Read(FormatAddress(a.name, a.email), r) == After(a, r)
  {
    if IsMailbox(a) {
      MailboxIsRead(a, r);
    } else {
      assert FormatAddress(a.name, a.email) == "";
    }
  }

  lemma JoinConsIsRead(piece: string, pieces: seq<string>, r: Reader)
    requires !Read(piece, r).escaped
    ensures Read(Join([piece] + pieces, ", "), r) == Read(Join(pieces, ", "), Read(piece, r))
  {
    var all := [piece] + pieces;
    assert all[1..] == pieces;
    if pieces != [] {
      PlainTailIsRead(piece, ", ", r);
      ReadConcat(piece + ", ", Join(pieces, ", "), r);
    }
  }

  lemma ExposedStep(a: Address, rest: seq<Address>, r: Reader)
    requires !r.escaped
    ensures Nest(Exposed([a] + rest, r.inQuotes), r.depth)
         == Nest(Exposed(rest, After(a, r).inQuotes), After(a, r).depth)
  {
    var all := [a] + rest;
    assert all[0] == a && all[1..] == rest;
    var behind := Exposed(rest, r.inQuotes != Toggles(a));
    if r.inQuotes && IsMailbox(a) {
      MailboxIsRead(a, r);
      assert Exposed(all, true) == Interiors(a) + behind;
      NestConcat(Interiors(a), behind, r.depth);
    } else {
      assert Exposed(all, r.inQuotes) == "" + behind == behind;
    }
  }

  /** Reading a printed list comes down to the quoted text read inside out. */
  lemma {:induction false} ListIsRead(addresses: seq<Address>, r: Reader)
    requires !r.escaped
    ensures Read(Join(Formatted(addresses), ", "), r).depth == Nest(Exposed(addresses, r.inQuotes), r.depth)
  {
    if addresses != [] {
      var a, rest := addresses[0], addresses[1..];
      assert addresses == [a] + rest;
      ListIsRead(rest, After(a, r));
      ExposedStep(a, rest, r);
      FirstIsRead(a, rest, r);
    }
  }

  lemma FirstIsRead(a: Address, rest: seq<Address>, r: Reader)
    requires !r.escaped
    ensures Read(Join(Formatted([a] + rest), ", "), r) == Read(Join(Formatted(rest), ", "), After(a, r))
  {
    assert ([a] + rest)[1..] == rest;
    if a.Address? && a.email != "" {
      PrintedIsRead(a, r);
      JoinConsIsRead(FormatAddress(a.name, a.email), Formatted(rest), r);
    } else {
      assert Formatted([a] + rest) == Formatted(rest);
    }
  }

  /** Exactly which printed lists are taken for ones with an unclosed comment: those in which
      the quoted text of the mailboxes behind an odd number of toggling domains, put together,
      leaves a paren open. */
  lemma ListIsMisreadExactly(addresses: seq<Address>)
    ensures Read(Join(Formatted(addresses), ", "), OPEN).depth > 0 <==> Nest(Exposed(addresses, false), 0) > 0
  {
    ListIsRead(addresses, OPEN);
  }

  lemma {:induction false} NothingIsExposed(addresses: seq<Address>)
    requires forall i :: 0 <= i < |addresses| ==> !Toggles(addresses[i])
    ensures Exposed(addresses, false) == ""
  {
    if addresses != [] {
      NothingIsExposed(addresses[1..]);
    }
  }

  /** In particular none in which every domain holds an even number of quotes. */
  lemma PrintedListHasNoUnclosedComment(addresses: seq<Address>)
    requires forall i :: 0 <= i < |addresses| ==> !Toggles(addresses[i])
    ensures Read(Join(Formatted(addresses), ", "), OPEN).depth == 0
  {
    NothingIsExposed(addresses);
    ListIsMisreadExactly(addresses);
  }

  // ------------------------------------------------------------------
  // Lists that are misread
  // ------------------------------------------------------------------

  /** For every valid address with an odd number of quotes in its domain some list is misread:
      behind it, a name that is a parenthesis is read as the start of a comment. */
  lemma OddLiteralOpensAComment(email: string)
    requires Strip(email) == email && IsValidAddrSpec(email) && OddQuotes(Domain(email))
    ensures Read(Join(Formatted([Address("", email), Address("(", "a@b")]), ", "), OPEN).depth > 0
  {
    FormattedPair(email);
    AddrSpecIsRead(email, OPEN);
    ParenReadAfter(email);
  }

  /** There is such an address, and a list is misread for the parenthesis, not for the address
      alone. */
  lemma LoneQuoteInALiteral()
    ensures Toggles(Address("", "a@[\"]"))
    ensures Read(Join(Formatted([Address("", "a@[\"]"), Address("(", "a@b")]), ", "), OPEN).depth > 0
    ensures Read(Join(Formatted([Address("", "a@[\"]"), Address("", "a@b")]), ", "), OPEN).depth == 0
  {
    QuoteLiteralIsValid();
    OddLiteralOpensAComment("a@[\"]");
    BareAddressIsHarmless(Address("", "a@[\"]"));
  }

  /** Behind one other mailbox, an address without a name or a quoted local part. */
  lemma BareAddressIsHarmless(first: Address)
    ensures Read(Join(Formatted([first, Address("", "a@b")]), ", "), OPEN).depth == 0
  {
    var second := Address("", "a@b");
    var list := [first, second];
    ValidAddress();
    assert list[1..] == [second] && [second][1..] == [];
    assert Interiors(second) == "";
    assert forall q :: Exposed([second], q) == "";
    assert Exposed(list, false) == "" + Exposed([second], false != Toggles(first)) == "";
    ListIsMisreadExactly(list);
  }

  lemma QuoteLiteralIsValid()
    ensures var a := "a@[\"]"; Strip(a) == a && IsValidAddrSpec(a) && OddQuotes(Domain(a))
  {
    var a := "a@[\"]";
    assert Strip(a) == a by {
      StripFixed(a);
    }
    LastAtIs(a);
    QuoteLiteralIsOdd();
    LetterIsLocal();
    assert Domain(a) == QUOTE_LITERAL && LocalPart(a) == "a";
  }

  lemma LetterIsLocal()
    ensures IsValidLocalPart("a") && !IsSpace('a')
  {
  }

  const QUOTE_LITERAL := "[\"]"

  lemma QuoteLiteralIsOdd()
    ensures IsValidDomain(QUOTE_LITERAL) && OddQuotes(QUOTE_LITERAL)
  {
    var d := QUOTE_LITERAL;
    assert d[1..|d| - 1] == "\"";
    assert d[1..] == "\"]" && d[1..][1..] == "]" && d[1..][1..][1..] == "";
    assert Quotes("]") == 0 && Quotes("\"]") == 1 && Quotes(d) == 1;
  }

  lemma LastAtIs(a: string)
    requires a == "a@[\"]"
    ensures LastIndex(a, '@') == 1
  {
    assert a[..4] == "a@[\"" && a[..3] == "a@[" && a[..2] == "a@";
    assert a[..4][..3] == a[..3] && a[..3][..2] == a[..2];
  }

  lemma ParenReadAfter(email: string)
    requires Read(email, OPEN) == IN_QUOTES
    ensures Read(email + ", " + PAREN, OPEN).depth == 1
  {
    ReadConcat(email, ", ", OPEN);
    PlainIsRead(", ", IN_QUOTES);
    ReadConcat(email + ", ", PAREN, OPEN);
    ParenInsideOut();
  }

  const PAREN := "\"(\"" + " <" + "a@b" + ">"

  lemma ParenInsideOut()
    ensures Read(PAREN, IN_QUOTES).depth == 1
  {
    var tail := " <" + "a@b" + ">";
    QuotedIsRead("(", IN_QUOTES);
    assert "("[1..] == "" && Nest("(", 0) == 1;
    PlainTailIsRead("\"" + "(" + "\"", tail, IN_QUOTES);
    assert PAREN == "\"" + "(" + "\"" + tail;
  }

  lemma ReadOne(c: char, rest: string, r: Reader)
    ensures Read([c] + rest, r) == Read(rest, Read1(r, c))
  {
    assert ([c] + rest)[1..] == rest;
  }

  lemma FormattedPair(email: string)
    requires Strip(email) == email && IsValidAddrSpec(email)
    ensures Join(Formatted([Address("", email), Address("(", "a@b")]), ", ") == email + ", " + PAREN
  {
    ParenMailbox();
    FormatBare(email);
    assert email != "";
    PairJoins(Address("", email), Address("(", "a@b"), email, PAREN);
  }

  lemma PairJoins(first: Address, second: Address, a: string, b: string)
    requires Printed(first) == [a] && Printed(second) == [b]
    ensures Join(Formatted([first, second]), ", ") == a + ", " + b
  {
    assert [first, second][1..] == [second] && [second][1..] == [];
    assert Formatted([second]) == [b];
    assert Formatted([first, second]) == [a, b];
    assert [a, b][1..] == [b];
  }

  lemma ParenMailbox()
    ensures Printed(Address("(", "a@b")) == [PAREN]
  {
    ValidAddress();
    ParenIsQuoted();
    FormatNamed("(", "a@b");
  }

  lemma ValidAddress()
    ensures Strip("a@b") == "a@b" && IsValidAddrSpec(Strip("a@b"))
  {
    var a := "a@b";
    assert Strip(a) == a by {
      StripFixed(a);
    }
    assert a[0] == 'a' && a[1] == '@' && a[2] == 'b';
    assert LastIndex(a, '@') == 1 by {
      assert a[..2] == "a@";
    }
    assert LocalPart(a) == "a" && Domain(a) == "b";
  }

  lemma ParenIsQuoted()
    ensures Shown(Sanitize("(")) == "\"(\""
  {
    assert Sanitize("(") == "(";
    assert "("[1..] == "";
    assert Replace("(", '\\', "\\\\") == "(";
    assert Escape("(") == "(";
    assert "("[0] in QUOTE_WORTHY;
    assert !Lacks("(", QUOTE_WORTHY);
    assert !IsQuotedString("(");
  }
}
