/** The shape an address must have before the composer puts it in a header. */
module AddrSpec {
  import opened Text
  import opened Scanner

  /** Characters that end or change a token outside a quoted-string or domain-literal. */
  const SPECIALS := {'(', ')', '<', '>', '[', ']', ':', ';', '@', '\\', ',', '"'}

  /** Characters an address may not carry inside a domain-literal. */
  const EXCLUDED_FROM_LITERAL := {'[', ']', '\\', ',', '(', ')'}

  predicate IsLiteral(domain: string) {
    StartsWith(domain, '[') && EndsWith(domain, ']') && |domain| >= 2
  }

  predicate IsValidDomain(domain: string) {
    if IsLiteral(domain) then
      NoSpace(domain[1..|domain| - 1]) && Lacks(domain[1..|domain| - 1], EXCLUDED_FROM_LITERAL)
    else
      NoSpace(domain) && Lacks(domain, SPECIALS)
  }

  /** Whether the text between the two quotes of a quoted-string neither closes it early
      nor leaves a backslash to escape the closing quote. */
  predicate WellQuoted(interior: string) {
    if interior == "" then true
    else if interior[0] == '\\' then |interior| > 1 && WellQuoted(interior[2..])
    else interior[0] != '"' && WellQuoted(interior[1..])
  }

  method IsTerminatedQuotedString(local: string) returns (ok: bool)
    requires |local| >= 2
    ensures ok == WellQuoted(local[1..|local| - 1])
  {
    var interior := local[1..|local| - 1];
    var index := 0;
    while index < |interior|
      invariant 0 <= index <= |interior|
      invariant WellQuoted(interior) == WellQuoted(interior[index..])
    {
      var ch := interior[index];
      if ch == '\\' {
        if index + 1 >= |interior| {
          return false;
        }
        assert interior[index..][2..] == interior[index + 2..];
        index := index + 2;
        continue;
      }
      if ch == '"' {
        return false;
      }
      assert interior[index..][1..] == interior[index + 1..];
      index := index + 1;
    }
    return true;
  }

  predicate IsQuotedString(s: string) {
    StartsWith(s, '"') && EndsWith(s, '"') && |s| >= 2
  }

  /** The part of an address before its last `@`, and the part after it. */
  function LocalPart(addr: string): string
    requires '@' in addr
  {
    addr[..LastIndex(addr, '@')]
  }

  function Domain(addr: string): string
    requires '@' in addr
  {
    addr[LastIndex(addr, '@') + 1..]
  }

  lemma AddrParts(addr: string)
    requires '@' in addr
    ensures addr == LocalPart(addr) + "@" + Domain(addr)
  {
  }

  predicate IsValidLocalPart(local: string) {
    && local != ""
    && if IsQuotedString(local) then WellQuoted(local[1..|local| - 1])
       else NoSpace(local) && Lacks(local, SPECIALS)
  }

  predicate IsValidAddrSpec(addr: string) {
    && '@' in addr
    && Clean(addr)
    && Domain(addr) != "" && IsValidDomain(Domain(addr))
    && IsValidLocalPart(LocalPart(addr))
  }

  // ------------------------------------------------------------------
  // What the scanner makes of the pieces of an address
  // ------------------------------------------------------------------

  /** Scanning `s` from `st` ends in `end` and meets no separator on the way. */
  ghost predicate Crosses(s: string, st: Scan, end: Scan) {
    Run(s, st) == end && Split(s, st) == [s]
  }

  /** A piece a mailbox-list can contain without changing how the rest is read. */
  ghost predicate Closed(s: string) {
    Crosses(s, START, START)
  }

  lemma {:induction false} CrossesConcat(a: string, b: string, st: Scan, mid: Scan, end: Scan)
    requires Crosses(a, st, mid) && Crosses(b, mid, end)
    ensures Crosses(a + b, st, end)
    decreases a
  {
    RunConcat(a, b, st);
    if a == "" {
      assert a + b == b;
    } else {
      var next := Step(st, a[0]);
      assert (a + b)[0] == a[0] && (a + b)[1..] == a[1..] + b;
      var rest := Split(a[1..], next);
      assert st != START || a[0] != ',';
      assert Split(a, st)[0] == [a[0]] + rest[0];
      assert rest[0] == a[1..];
      CrossesConcat(a[1..], b, next, mid, end);
      assert a + b == [a[0]] + (a[1..] + b);
    }
  }

  lemma CrossesOne(c: char, st: Scan)
    requires st != START || c != ','
    ensures Crosses([c], st, Step(st, c))
  {
    assert [c][1..] == "";
    assert [c] + "" == [c];
  }

  /** Text without a quote, bracket, paren or comma leaves the scanner alone. */
  lemma {:induction false} PlainIsClosed(s: string)
    requires Lacks(s, {'"', '[', '(', ','})
    ensures Closed(s)
  {
    if s != "" {
      PlainIsClosed(s[1..]);
      CrossesOne(s[0], START);
      assert s == [s[0]] + s[1..];
      CrossesConcat([s[0]], s[1..], START, START, START);
    }
  }

  /** Every prefix of `s` leaves the scanner inside the quoted-string. */
  ghost predicate StaysInside(s: string, st: Scan) {
    st.mode.Quote? && (s == "" || StaysInside(s[1..], Step(st, s[0])))
  }

  /** Well-quoted text, and only such text, never leaves the quoted-string and does not
      end on a backslash still waiting for a character to escape. */
  lemma {:induction false} WellQuotedMeansStaysInside(s: string)
    ensures WellQuoted(s) <==> StaysInside(s, QUOTED) && !Run(s, QUOTED).escaped
    decreases |s|
  {
    if s == "" {
    } else if s[0] == '\\' {
      EscapeIsInside(s);
      if |s| > 1 {
        WellQuotedMeansStaysInside(s[2..]);
      }
    } else {
      PlainIsInside(s);
      WellQuotedMeansStaysInside(s[1..]);
    }
  }

  const CLAIMED := Scan(Quote, true)

  /** A backslash takes the scanner two characters on, or leaves it waiting. */
  lemma EscapeIsInside(s: string)
    requires s != "" && s[0] == '\\'
    ensures if |s| > 1
            then StaysInside(s, QUOTED) == StaysInside(s[2..], QUOTED) && Run(s, QUOTED) == Run(s[2..], QUOTED)
            else Run(s, QUOTED).escaped
  {
    var t := s[1..];
    assert Step(QUOTED, s[0]) == CLAIMED;
    assert Run(s, QUOTED) == Run(t, CLAIMED) && StaysInside(s, QUOTED) == StaysInside(t, CLAIMED);
    if |s| > 1 {
      assert t[0] == s[1] && t[1..] == s[2..] && Step(CLAIMED, t[0]) == QUOTED;
      assert Run(t, CLAIMED) == Run(t[1..], QUOTED) && StaysInside(t, CLAIMED) == StaysInside(t[1..], QUOTED);
    } else {
      assert t == "";
    }
  }

  /** Any other character takes it one on, a quote out of the quoted-string. */
  lemma PlainIsInside(s: string)
    requires s != "" && s[0] != '\\'
    ensures if s[0] == '"' then !StaysInside(s, QUOTED)
            else StaysInside(s, QUOTED) == StaysInside(s[1..], QUOTED) && Run(s, QUOTED) == Run(s[1..], QUOTED)
  {
    if s[0] == '"' {
      assert !StaysInside(s[1..], Step(QUOTED, s[0]));
    } else {
      assert Step(QUOTED, s[0]) == QUOTED;
    }
  }

  lemma {:induction false} WellQuotedStaysInside(s: string)
    requires WellQuoted(s)
    ensures Crosses(s, QUOTED, QUOTED)
    decreases |s|
  {
    if s == "" {
    } else if s[0] == '\\' {
      WellQuotedStaysInside(s[2..]);
      CrossesOne('\\', QUOTED);
      CrossesOne(s[1], Scan(Quote, true));
      CrossesConcat(['\\'], [s[1]], QUOTED, Scan(Quote, true), QUOTED);
      assert s == ['\\'] + [s[1]] + s[2..];
      CrossesConcat(['\\'] + [s[1]], s[2..], QUOTED, QUOTED, QUOTED);
    } else {
      WellQuotedStaysInside(s[1..]);
      CrossesOne(s[0], QUOTED);
      assert s == [s[0]] + s[1..];
      CrossesConcat([s[0]], s[1..], QUOTED, QUOTED, QUOTED);
    }
  }

  lemma QuotedIsClosed(interior: string)
    requires WellQuoted(interior)
    ensures Closed("\"" + interior + "\"")
  {
    WellQuotedStaysInside(interior);
    CrossesOne('"', START);
    CrossesOne('"', QUOTED);
    CrossesConcat("\"", interior, START, QUOTED, QUOTED);
    CrossesConcat("\"" + interior, "\"", START, QUOTED, START);
  }

  lemma {:induction false} LiteralInterior(s: string)
    requires Lacks(s, {']'})
    ensures Crosses(s, Scan(Literal, false), Scan(Literal, false))
  {
    var inside := Scan(Literal, false);
    if s != "" {
      LiteralInterior(s[1..]);
      CrossesOne(s[0], inside);
      assert s == [s[0]] + s[1..];
      CrossesConcat([s[0]], s[1..], inside, inside, inside);
    }
  }

  lemma DomainIsClosed(domain: string)
    requires IsValidDomain(domain)
    ensures Closed(domain)
  {
    if IsLiteral(domain) {
      var interior, inside := domain[1..|domain| - 1], Scan(Literal, false);
      assert domain == "[" + interior + "]";
      LiteralInterior(interior);
      CrossesOne('[', START);
      CrossesOne(']', inside);
      CrossesConcat("[", interior, START, inside, inside);
      CrossesConcat("[" + interior, "]", START, inside, START);
    } else {
      PlainIsClosed(domain);
    }
  }

  lemma LocalPartIsClosed(local: string)
    requires IsValidLocalPart(local)
    ensures Closed(local)
  {
    if IsQuotedString(local) {
      assert local == "\"" + local[1..|local| - 1] + "\"";
      QuotedIsClosed(local[1..|local| - 1]);
    } else {
      PlainIsClosed(local);
    }
  }

  /** A valid address is one mailbox to the scanner, wherever it is put. */
  lemma AddrSpecIsClosed(addr: string)
    requires IsValidAddrSpec(addr)
    ensures Closed(addr)
  {
    var local, domain := LocalPart(addr), Domain(addr);
    AddrParts(addr);
    LocalPartIsClosed(local);
    PlainIsClosed("@");
    DomainIsClosed(domain);
    CrossesConcat(local, "@", START, START, START);
    CrossesConcat(local + "@", domain, START, START, START);
  }
}
