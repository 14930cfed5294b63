/** Printing mailbox-lists so that every reader counts the same mailboxes. */
module Mailboxes {
  import opened Text
  import opened Scanner
  import opened AddrSpec

  const QUOTE_WORTHY := {',', '.', ';', ':', '@', '<', '>', '(', ')', '[', ']', '"', '\\'}

  /** Backslashes doubled, then quotes escaped. */
  function Escape(name: string): string {
    Replace(Replace(name, '\\', "\\\\"), '"', "\\\"")
  }

  predicate NeedsQuoting(name: string) {
    (Contains(name, "=?") && Contains(name, "?=")) || !Lacks(name, QUOTE_WORTHY)
  }

  predicate AlreadyQuoted(name: string) {
    IsQuotedString(name) && WellQuoted(name[1..|name| - 1])
  }

  /** How a sanitized, non-empty display name is written. */
  function Shown(clean: string): string {
    if NeedsQuoting(clean) && !AlreadyQuoted(clean) then "\"" + Escape(clean) + "\"" else clean
  }

  /** One mailbox, or "" when the address is not one. */
  function FormatAddress(name: string, email: string): string {
    var addr := Strip(email);
    if !IsValidAddrSpec(addr) then ""
    else
      var clean := Sanitize(name);
      if clean == "" then addr
      else Shown(clean) + " <" + addr + ">"
  }

  lemma FormatBare(email: string)
    requires IsValidAddrSpec(Strip(email))
    ensures FormatAddress("", email) == Strip(email)
  {
  }

  lemma FormatNamed(name: string, email: string)
    requires IsValidAddrSpec(Strip(email)) && Sanitize(name) != ""
    ensures FormatAddress(name, email) == Shown(Sanitize(name)) + " <" + Strip(email) + ">"
  {
  }

  /** An element of the caller's address list; anything that is not a record is skipped. */
  datatype Address = Address(name: string, email: string) | NotARecord

  /** What one element contributes; one without an address contributes nothing. */
  function Printed(a: Address): seq<string> {
    if a.Address? && a.email != "" then [FormatAddress(a.name, a.email)] else []
  }

  /** The mailboxes printed, in order. */
  function Formatted(addresses: seq<Address>): seq<string> {
    if addresses == [] then [] else Printed(addresses[0]) + Formatted(addresses[1..])
  }

  lemma {:induction false} FormattedSnoc(addresses: seq<Address>, a: Address)
    ensures Formatted(addresses + [a]) == Formatted(addresses) + Printed(a)
  {
    if addresses == [] {
      assert [a][1..] == [];
    } else {
      assert (addresses + [a])[1..] == addresses[1..] + [a];
      FormattedSnoc(addresses[1..], a);
    }
  }

  method FormatAddressList(addresses: seq<Address>) returns (r: string)
    ensures r == Join(Formatted(addresses), ", ")
  {
    var formatted := [];
    var i := 0;
    while i < |addresses|
      invariant 0 <= i <= |addresses|
      invariant formatted == Formatted(addresses[..i])
    {
      var addr := addresses[i];
      assert addresses[..i + 1] == addresses[..i] + [addr];
      FormattedSnoc(addresses[..i], addr);
      if addr.Address? && addr.email != "" {
        formatted := formatted + [FormatAddress(addr.name, addr.email)];
      }
      i := i + 1;
    }
    assert addresses[..i] == addresses;
    return Join(formatted, ", ");
  }

  // ------------------------------------------------------------------
  // Every printed mailbox is closed
  // ------------------------------------------------------------------

  /** Character by character, what the two replacements amount to. */
  function Escaped(c: char): string {
    if c == '\\' then "\\\\" else if c == '"' then "\\\"" else [c]
  }

  lemma {:induction false} EscapeStep(name: string)
    requires name != ""
    ensures Escape(name) == Escaped(name[0]) + Escape(name[1..])
  {
    var rest := Replace(name[1..], '\\', "\\\\");
    if name[0] == '\\' {
      var s := "\\\\" + rest;
      assert s[1..] == "\\" + rest && s[1..][1..] == rest;
      assert Replace(s, '"', "\\\"") == "\\" + ("\\" + Replace(rest, '"', "\\\""));
    } else {
      assert ([name[0]] + rest)[1..] == rest;
    }
  }

  /** Escaping makes any name well-quoted, and it can be undone. */
  lemma {:induction false} EscapeIsWellQuoted(name: string)
    ensures WellQuoted(Escape(name))
    ensures Unescape(Escape(name)) == name
  {
    if name != "" {
      EscapeStep(name);
      EscapeIsWellQuoted(name[1..]);
      var s := Escape(name);
      if name[0] == '\\' || name[0] == '"' {
        assert s[0] == '\\' && s[2..] == Escape(name[1..]);
      } else {
        assert s[0] == name[0] && s[1..] == Escape(name[1..]);
      }
      assert name == [name[0]] + name[1..];
    }
  }

  /** Reading a quoted-string: each backslash stands for the character after it. */
  function Unescape(s: string): string {
    if s == "" then ""
    else if s[0] == '\\' && |s| > 1 then [s[1]] + Unescape(s[2..])
    else [s[0]] + Unescape(s[1..])
  }

  lemma ShownIsClosed(clean: string)
    ensures Closed(Shown(clean))
  {
    if NeedsQuoting(clean) && !AlreadyQuoted(clean) {
      EscapeIsWellQuoted(clean);
      QuotedIsClosed(Escape(clean));
    } else if AlreadyQuoted(clean) {
      assert clean == "\"" + clean[1..|clean| - 1] + "\"";
      QuotedIsClosed(clean[1..|clean| - 1]);
    } else {
      PlainIsClosed(clean);
    }
  }

  /** Whatever the display name and address, the printed mailbox holds no top-level comma
      and leaves the scanner as it found it. */
  lemma FormatAddressIsClosed(name: string, email: string)
    ensures Closed(FormatAddress(name, email))
  {
    var addr, clean := Strip(email), Sanitize(name);
    if !IsValidAddrSpec(addr) {
      assert Closed("");
    } else {
      AddrSpecIsClosed(addr);
      if clean != "" {
        ShownIsClosed(clean);
        AngleIsClosed(Shown(clean), addr);
      }
    }
  }

  lemma AngleIsClosed(shown: string, addr: string)
    requires Closed(shown) && Closed(addr)
    ensures Closed(shown + " <" + addr + ">")
  {
    PlainIsClosed(" <");
    PlainIsClosed(">");
    CrossesConcat(shown, " <", START, START, START);
    CrossesConcat(shown + " <", addr, START, START, START);
    CrossesConcat(shown + " <" + addr, ">", START, START, START);
  }

  lemma PrintedIsClosed(a: Address)
    ensures AllClosed(Printed(a))
  {
    if a.Address? {
      FormatAddressIsClosed(a.name, a.email);
    }
  }

  /** The entries with the space that follows each joining comma. */
  function Spaced(entries: seq<string>): seq<string> {
    if entries == [] then [] else [" " + entries[0]] + Spaced(entries[1..])
  }

  ghost predicate AllClosed(pieces: seq<string>) {
    forall i :: 0 <= i < |pieces| ==> Closed(pieces[i])
  }

  lemma {:induction false} JoinSplits(pieces: seq<string>)
    requires pieces != [] && AllClosed(pieces)
    ensures Split(Join(pieces, ", "), START) == [pieces[0]] + Spaced(pieces[1..])
    ensures Run(Join(pieces, ", "), START) == START
  {
    assert Closed(pieces[0]);
    if |pieces| > 1 {
      JoinSplits(pieces[1..]);
      OneMore(pieces[0], Join(pieces[1..], ", "));
      assert Join(pieces, ", ") == pieces[0] + ", " + Join(pieces[1..], ", ");
    }
  }

  /** A closed piece in front of a list that ends neutral. */
  lemma OneMore(piece: string, rest: string)
    requires Closed(piece) && Run(rest, START) == START
    ensures var s := piece + ", " + rest;
            && Split(s, START) == [piece] + ([" " + Split(rest, START)[0]] + Split(rest, START)[1..])
            && Run(s, START) == START
  {
    assert piece + ", " + rest == piece + "," + (" " + rest);
    SpaceInFront(rest);
    SplitAtSeparator(piece, " " + rest, START);
    CrossesComma(piece);
    RunConcat(piece + ",", " " + rest, START);
  }

  lemma CrossesComma(s: string)
    requires Closed(s)
    ensures Run(s + ",", START) == START
  {
    RunSnoc(s, ',', START);
  }

  lemma SpaceInFront(s: string)
    ensures Split(" " + s, START) == [" " + Split(s, START)[0]] + Split(s, START)[1..]
    ensures Run(" " + s, START) == Run(s, START)
  {
    assert (" " + s)[1..] == s;
  }

  lemma {:induction false} FormattedAreClosed(addresses: seq<Address>)
    ensures AllClosed(Formatted(addresses))
  {
    if addresses != [] {
      PrintedIsClosed(addresses[0]);
      FormattedAreClosed(addresses[1..]);
    }
  }

  /** N mailboxes in, N mailboxes out: the top-level commas of the printed list are the
      joining ones, and splitting there gives the printed mailboxes back, one for one.
      No display name or address can add, swallow or merge an entry. */
  lemma PrintedListSplitsBack(addresses: seq<Address>)
    requires Formatted(addresses) != []
    ensures var printed := Join(Formatted(addresses), ", ");
            && Split(printed, START) == [Formatted(addresses)[0]] + Spaced(Formatted(addresses)[1..])
            && Run(printed, START) == START
  {
    FormattedAreClosed(addresses);
    JoinSplits(Formatted(addresses));
  }

  /** Cutting a printed list to a cap keeps an initial segment of its mailboxes. */
  method CutPrintedList(addresses: seq<Address>, cap: nat) returns (kept: string, truncated: bool)
    ensures Formatted(addresses) != [] ==>
              Entries(kept) <= [Formatted(addresses)[0]] + Spaced(Formatted(addresses)[1..])
  {
    var printed := FormatAddressList(addresses);
    kept, truncated := CutAddressList(printed, cap);
    if Formatted(addresses) != [] {
      PrintedListSplitsBack(addresses);
    }
  }

  /** A printed mailbox is the address itself, or ends with it in angle brackets after a
      display name that reads back as the sanitized name. */
  lemma FormatAddressCarriesBoth(name: string, email: string)
    requires IsValidAddrSpec(Strip(email))
    ensures var addr, clean, s := Strip(email), Sanitize(name), FormatAddress(name, email);
            if clean == "" then s == addr
            else s == Shown(clean) + " <" + addr + ">" && ReadsAs(Shown(clean), clean)
  {
    var clean := Sanitize(name);
    EscapeIsWellQuoted(clean);
    var quoted := "\"" + Escape(clean) + "\"";
    assert quoted[1..|quoted| - 1] == Escape(clean);
  }

  /** A phrase is read literally, or as the quoted-string it is. */
  ghost predicate ReadsAs(shown: string, name: string) {
    shown == name || (IsQuotedString(shown) && Unescape(shown[1..|shown| - 1]) == name)
  }
}
