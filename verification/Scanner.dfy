/** The mailbox-list scanner of the address parser and the cut it is used for. */
module Scanner {

  /** Where in a mailbox-list the scanner is. */
  datatype Mode = Neutral | Quote | Literal | Comment(depth: nat)

  /** `escaped` says that a backslash has claimed the next character. */
  datatype Scan = Scan(mode: Mode, escaped: bool)

  const START := Scan(Neutral, false)
  const QUOTED := Scan(Quote, false)

  function Step(st: Scan, c: char): Scan {
    if st.escaped then Scan(st.mode, false)
    else if c == '\\' && (st.mode.Quote? || st.mode.Comment?) then Scan(st.mode, true)
    else
      Scan(match st.mode
           case Quote => if c == '"' then Neutral else Quote
           case Literal => if c == ']' then Neutral else Literal
           case Comment(d) =>
             if c == '(' then Comment(d + 1)
             else if c != ')' then st.mode
             else if d <= 1 then Neutral else Comment(d - 1)
           case Neutral =>
             if c == '"' then Quote else if c == '[' then Literal
             else if c == '(' then Comment(1) else Neutral,
           false)
  }

  /** The state after all of `s`. */
  function Run(s: string, st: Scan): Scan {
    if s == "" then st else Run(s[1..], Step(st, s[0]))
  }

  lemma {:induction false} RunConcat(a: string, b: string, st: Scan)
    ensures Run(a + b, st) == Run(b, Run(a, st))
    decreases a
  {
    if a == "" {
      assert a + b == b;
    } else {
      assert (a + b)[1..] == a[1..] + b;
      RunConcat(a[1..], b, Step(st, a[0]));
    }
  }

  lemma RunSnoc(a: string, c: char, st: Scan)
    ensures Run(a + [c], st) == Step(Run(a, st), c)
  {
    RunConcat(a, [c], st);
    assert [c][1..] == "";
  }

  /** A comma that separates two mailboxes: outside every quote, literal and comment. */
  predicate SeparatorAt(s: string, i: nat) {
    i < |s| && s[i] == ',' && Run(s[..i], START) == START
  }

  /** The top-level entries of a mailbox-list. */
  function Split(s: string, st: Scan): (r: seq<string>)
    ensures |r| >= 1
  {
    if s == "" then [""]
    else if st == START && s[0] == ',' then [""] + Split(s[1..], START)
    else
      var rest := Split(s[1..], Step(st, s[0]));
      [[s[0]] + rest[0]] + rest[1..]
  }

  /** The entries with the commas between them. */
  function Rejoin(entries: seq<string>): string {
    if entries == [] then ""
    else if |entries| == 1 then entries[0]
    else entries[0] + "," + Rejoin(entries[1..])
  }

  /** Splitting loses nothing. */
  lemma {:induction false} SplitRejoins(s: string, st: Scan)
    ensures Rejoin(Split(s, st)) == s
    decreases s
  {
    if s != "" {
      assert s == [s[0]] + s[1..];
      if st == START && s[0] == ',' {
        var rest := Split(s[1..], START);
        SplitRejoins(s[1..], START);
        assert ([""] + rest)[1..] == rest;
      } else {
        var rest := Split(s[1..], Step(st, s[0]));
        SplitRejoins(s[1..], Step(st, s[0]));
        var all := [[s[0]] + rest[0]] + rest[1..];
        assert all[1..] == rest[1..];
        if |rest| > 1 {
          assert [s[0]] + rest[0] + "," + Rejoin(rest[1..]) == [s[0]] + (rest[0] + "," + Rejoin(rest[1..]));
        }
      }
    }
  }

  /** Splitting at a top-level comma. */
  lemma {:induction false} SplitAtSeparator(a: string, b: string, st: Scan)
    requires Run(a, st) == START
    ensures Split(a + "," + b, st) == Split(a, st) + Split(b, START)
    decreases a
  {
    var s := a + "," + b;
    if a == "" {
      assert s[0] == ',' && s[1..] == b;
    } else {
      assert s[0] == a[0] && s[1..] == a[1..] + "," + b;
      SplitAtSeparator(a[1..], b, Step(st, a[0]));
    }
  }

  /** The last separator before `limit`, or -1. */
  method LastSeparatorIndex(value: string, limit: nat) returns (last: int)
    ensures -1 <= last < limit && last < |value|
    ensures last >= 0 ==> SeparatorAt(value, last)
    ensures forall i :: last < i < |value| && i < limit && 0 <= i ==> !SeparatorAt(value, i)
  {
    var inQuote, inLiteral, commentDepth := false, false, 0;
    last := -1;
    var index := 0;
    var end := if |value| < limit then |value| else limit;
    while index < end
      invariant 0 <= index <= end + 1
      invariant -1 <= last < end && last < index
      invariant commentDepth >= 0
      invariant !(inQuote && inLiteral) && (inQuote || inLiteral ==> commentDepth == 0)
      invariant index <= end ==> Run(value[..index], START) == Shown(inQuote, inLiteral, commentDepth)
      invariant last >= 0 ==> SeparatorAt(value, last)
      invariant forall i :: last < i < index && 0 <= i < end ==> !SeparatorAt(value, i)
    {
      var ch := value[index];
      assert value[..index + 1] == value[..index] + [ch];
      RunSnoc(value[..index], ch, START);
      if ch == '\\' && (inQuote || commentDepth > 0) {
        if index + 1 < end {
          assert value[..index + 2] == value[..index + 1] + [value[index + 1]];
          RunSnoc(value[..index + 1], value[index + 1], START);
        }
        index := index + 2;
        continue;
      }
      if inQuote {
        inQuote := ch != '"';
      } else if inLiteral {
        inLiteral := ch != ']';
      } else if commentDepth > 0 {
        if ch == '(' {
          commentDepth := commentDepth + 1;
        } else if ch == ')' {
          commentDepth := commentDepth - 1;
        }
      } else if ch == '"' {
        inQuote := true;
      } else if ch == '[' {
        inLiteral := true;
      } else if ch == '(' {
        commentDepth := 1;
      } else if ch == ',' {
        last := index;
      }
      index := index + 1;
    }
  }

  /** The scanner state behind the three loop variables. */
  ghost function Shown(inQuote: bool, inLiteral: bool, commentDepth: nat): Scan {
    Scan(if inQuote then Quote else if inLiteral then Literal
         else if commentDepth > 0 then Comment(commentDepth) else Neutral, false)
  }

  /** A cut right before `at`, where `at` is the last separator before `limit`. */
  ghost predicate LastBefore(value: string, limit: nat, at: nat) {
    && at < limit && SeparatorAt(value, at)
    && forall i :: at < i < |value| && i < limit ==> !SeparatorAt(value, i)
  }

  /** The entries of an address header; an empty value has none. */
  function Entries(value: string): seq<string> {
    if value == "" then [] else Split(value, START)
  }

  /** An over-long address list is cut back to a separator: the result fits the cap,
      leaves the scanner outside every quote, literal and comment, and its entries are
      an initial segment of those of the whole value. */
  method CutAddressList(value: string, cap: nat) returns (kept: string, truncated: bool)
    ensures truncated == (|value| > cap)
    ensures kept <= value && |kept| <= cap
    ensures !truncated ==> kept == value
    ensures truncated ==> Run(kept, START) == START
    ensures Entries(kept) <= Entries(value)
    ensures truncated && kept != "" ==>
              |kept| < cap && Split(value[..cap], START) == Entries(kept) + [value[|kept| + 1..cap]]
    ensures truncated && kept == "" ==> forall i :: 0 < i < cap ==> !SeparatorAt(value, i)
  {
    if value == "" {
      return "", false;
    }
    truncated := |value| > cap;
    kept := value;
    if truncated {
      var separator := LastSeparatorIndex(value, cap);
      kept := if separator >= 0 then value[..separator] else "";
      if separator >= 0 {
        CutIsPrefix(value, cap, separator);
      }
    }
  }

  lemma SplitHere(s: string, at: nat)
    requires SeparatorAt(s, at)
    ensures Split(s, START) == Split(s[..at], START) + Split(s[at + 1..], START)
  {
    assert s == s[..at] + "," + s[at + 1..];
    SplitAtSeparator(s[..at], s[at + 1..], START);
  }

  /** A separator inside a piece that starts neutral is one of the whole value. */
  lemma SeparatorWithin(value: string, from: nat, to: nat, i: nat)
    requires from <= to <= |value| && Run(value[..from], START) == START
    requires i < to - from
    ensures SeparatorAt(value[from..to], i) ==> SeparatorAt(value, from + i)
  {
    assert value[..from + i] == value[..from] + value[from..to][..i];
    RunConcat(value[..from], value[from..to][..i], START);
  }

  /** What cutting at the last separator keeps of the whole and of the capped text: of
      the latter, all but the unfinished last entry. */
  lemma CutIsPrefix(value: string, cap: nat, at: nat)
    requires cap < |value| && LastBefore(value, cap, at)
    ensures Split(value[..at], START) <= Split(value, START)
    ensures Split(value[..cap], START) == Split(value[..at], START) + [value[at + 1..cap]]
  {
    SplitHere(value, at);
    var capped := value[..cap];
    assert capped[..at] == value[..at] && capped[at + 1..] == value[at + 1..cap];
    SplitHere(capped, at);
    LastEntryIsWhole(value, cap, at);
  }

  lemma LastEntryIsWhole(value: string, cap: nat, at: nat)
    requires cap < |value| && LastBefore(value, cap, at)
    ensures Split(value[at + 1..cap], START) == [value[at + 1..cap]]
  {
    var tail := value[at + 1..cap];
    assert value[..at + 1] == value[..at] + [','];
    RunSnoc(value[..at], ',', START);
    forall i | 0 <= i < |tail| ensures !(tail[i] == ',' && Run(tail[..i], START) == START) {
      SeparatorWithin(value, at + 1, cap, i);
      assert !SeparatorAt(tail, i);
    }
    NoSeparatorNoSplit(tail, START);
  }

  lemma {:induction false} NoSeparatorNoSplit(s: string, st: Scan)
    requires forall i :: 0 <= i < |s| ==> !(s[i] == ',' && Run(s[..i], st) == START)
    ensures Split(s, st) == [s]
    decreases s
  {
    if s != "" {
      assert s[..0] == "";
      assert st != START || s[0] != ',';
      forall i | 0 <= i < |s| - 1 ensures !(s[1..][i] == ',' && Run(s[1..][..i], Step(st, s[0])) == START) {
        assert s[..i + 1][1..] == s[1..][..i];
      }
      NoSeparatorNoSplit(s[1..], Step(st, s[0]));
      assert s == [s[0]] + s[1..];
    }
  }
}
