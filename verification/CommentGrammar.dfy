/** Comments by their grammar (section 3.2.2 of RFC 5322): what each of the three scanners
    that meet one makes of it. */
module CommentGrammar {
  import opened Text
  import opened Scanner
  import opened AddrSpec
  import MessageIds
  import UnclosedComments

  /** The inside of a comment: plain characters, quoted-pairs and nested comments. */
  datatype Piece = Plain(c: char) | Pair(c: char) | Nested(inside: seq<Piece>)

  predicate WellFormed(pieces: seq<Piece>)
    decreases pieces
  {
    pieces != [] ==>
      && (match pieces[0]
          case Plain(c) => c !in {'(', ')', '\\'}
          case Pair(_) => true
          case Nested(inside) => WellFormed(inside))
      && WellFormed(pieces[1..])
  }

  function Print(pieces: seq<Piece>): string
    decreases pieces, 0
  {
    if pieces == [] then ""
    else
      PrintOne(pieces[0]) + Print(pieces[1..])
  }

  function PrintOne(p: Piece): string
    decreases p, 0
  {
    match p
    case Plain(c) => [c]
    case Pair(c) => ['\\', c]
    case Nested(inside) => Comment(inside)
  }

  function Comment(inside: seq<Piece>): string
    decreases inside, 1
  {
    "(" + Print(inside) + ")"
  }

  // ------------------------------------------------------------------
  // Stripping comments from a message-id header
  // ------------------------------------------------------------------

  lemma PlainIsDropped(c: char, rest: string, depth: nat)
    requires c !in {'(', ')', '\\'} && depth >= 1
    ensures MessageIds.DropComments([c] + rest, depth) == MessageIds.DropComments(rest, depth)
  {
    assert ([c] + rest)[1..] == rest;
  }

  lemma PairIsDropped(c: char, rest: string, depth: nat)
    requires depth >= 1
    ensures MessageIds.DropComments(['\\', c] + rest, depth) == MessageIds.DropComments(rest, depth)
  {
    assert (['\\', c] + rest)[2..] == rest;
  }

  /** The inside of a comment is skipped whole. */
  lemma {:induction false} InsideIsDropped(inside: seq<Piece>, rest: string, depth: nat)
    requires WellFormed(inside) && depth >= 1
    ensures MessageIds.DropComments(Print(inside) + rest, depth) == MessageIds.DropComments(rest, depth)
    decreases inside, 0
  {
    if inside == [] {
      assert Print(inside) + rest == rest;
    } else {
      var tail := Print(inside[1..]) + rest;
      assert Print(inside) + rest == PrintOne(inside[0]) + tail;
      InsideIsDropped(inside[1..], rest, depth);
      match inside[0] {
        case Plain(c) => PlainIsDropped(c, tail, depth);
        case Pair(c) => PairIsDropped(c, tail, depth);
        case Nested(more) => CommentIsDropped(more, tail, depth);
      }
    }
  }

  /** A comment, with whatever is nested or escaped in it, leaves nothing behind and does
      not touch what follows. */
  lemma {:induction false} CommentIsDropped(inside: seq<Piece>, rest: string, depth: nat)
    requires WellFormed(inside)
    ensures MessageIds.DropComments(Comment(inside) + rest, depth) == MessageIds.DropComments(rest, depth)
    decreases inside, 1
  {
    var s := Comment(inside) + rest;
    var closing := ")" + rest;
    assert s[0] == '(' && s[1..] == Print(inside) + closing;
    InsideIsDropped(inside, closing, depth + 1);
    assert closing[1..] == rest;
  }

  // ------------------------------------------------------------------
  // Scanning a mailbox-list
  // ------------------------------------------------------------------

  lemma {:induction false} InsideIsCrossed(inside: seq<Piece>, depth: nat)
    requires WellFormed(inside) && depth >= 1
    ensures Crosses(Print(inside), Scan(Mode.Comment(depth), false), Scan(Mode.Comment(depth), false))
    decreases inside, 0
  {
    var st := Scan(Mode.Comment(depth), false);
    if inside != [] {
      InsideIsCrossed(inside[1..], depth);
      match inside[0] {
        case Plain(c) =>
          CrossesOne(c, st);
          CrossesConcat([c], Print(inside[1..]), st, st, st);
        case Pair(c) =>
          CrossesOne('\\', st);
          CrossesOne(c, Scan(Mode.Comment(depth), true));
          CrossesConcat(['\\'], [c], st, Scan(Mode.Comment(depth), true), st);
          assert ['\\'] + [c] == ['\\', c];
          CrossesConcat(['\\', c], Print(inside[1..]), st, st, st);
        case Nested(more) =>
          NestedIsCrossed(more, depth);
          CrossesConcat(Comment(more), Print(inside[1..]), st, st, st);
      }
    }
  }

  lemma {:induction false} NestedIsCrossed(inside: seq<Piece>, depth: nat)
    requires WellFormed(inside)
    ensures var st := if depth == 0 then START else Scan(Mode.Comment(depth), false);
            Crosses(Comment(inside), st, st)
    decreases inside, 1
  {
    var st := if depth == 0 then START else Scan(Mode.Comment(depth), false);
    var deeper := Scan(Mode.Comment(depth + 1), false);
    CrossesOne('(', st);
    InsideIsCrossed(inside, depth + 1);
    CrossesOne(')', deeper);
    CrossesConcat("(", Print(inside), st, deeper, deeper);
    CrossesConcat("(" + Print(inside), ")", st, deeper, st);
  }

  /** No comma inside a comment separates mailboxes, and a complete comment leaves the
      scanner as it found it. */
  lemma CommentIsClosed(inside: seq<Piece>)
    requires WellFormed(inside)
    ensures Closed(Comment(inside))
  {
    NestedIsCrossed(inside, 0);
  }

  // ------------------------------------------------------------------
  // Looking for an unclosed comment
  // ------------------------------------------------------------------

  /** This reader takes a quote for the start or end of a quoted-string even inside a comment;
      `OddQuotes` says whether an odd number of them stands in the comment itself. */
  predicate OddQuotes(pieces: seq<Piece>) {
    pieces != [] && ((pieces[0] == Plain('"')) != OddQuotes(pieces[1..]))
  }

  /** The quotes in every comment nested in this one are paired. */
  predicate NestedPaired(pieces: seq<Piece>)
    decreases pieces
  {
    pieces != [] ==>
      && (pieces[0].Nested? ==> !OddQuotes(pieces[0].inside) && NestedPaired(pieces[0].inside))
      && NestedPaired(pieces[1..])
  }

  lemma PlainIsPassed(c: char, rest: string, r: UnclosedComments.Reader)
    requires c !in {'(', ')', '\\'} && !r.escaped
    ensures UnclosedComments.Read([c] + rest, r)
         == UnclosedComments.Read(rest, if c == '"' then r.(inQuotes := !r.inQuotes) else r)
  {
    UnclosedComments.ReadOne(c, rest, r);
  }

  lemma PairIsPassed(c: char, rest: string, r: UnclosedComments.Reader)
    requires !r.escaped
    ensures UnclosedComments.Read(['\\'] + ([c] + rest), r) == UnclosedComments.Read(rest, r)
  {
    UnclosedComments.ReadOne('\\', [c] + rest, r);
    UnclosedComments.ReadOne(c, rest, r.(escaped := true));
    assert UnclosedComments.Read1(r.(escaped := true), c) == r;
  }

  /** What the reader makes of the inside of a comment: a quote switches quoting on or off,
      and a nested comment opens, or closes, a level only where its paren is not quoted. */
  function Meet(pieces: seq<Piece>, r: UnclosedComments.Reader): UnclosedComments.Reader
    decreases pieces
  {
    if pieces == [] then r
    else
      match pieces[0]
      case Plain(c) => Meet(pieces[1..], if c == '"' then r.(inQuotes := !r.inQuotes) else r)
      case Pair(_) => Meet(pieces[1..], r)
      case Nested(inside) => Meet(pieces[1..], Leave(Meet(inside, Enter(r))))
  }

  function Enter(r: UnclosedComments.Reader): UnclosedComments.Reader {
    if r.inQuotes then r else r.(depth := r.depth + 1)
  }

  function Leave(r: UnclosedComments.Reader): UnclosedComments.Reader {
    if r.inQuotes || r.depth == 0 then r else r.(depth := r.depth - 1)
  }

  lemma {:induction false} InsideIsRead(inside: seq<Piece>, rest: string, r: UnclosedComments.Reader)
    requires WellFormed(inside) && !r.escaped
    ensures UnclosedComments.Read(Print(inside) + rest, r) == UnclosedComments.Read(rest, Meet(inside, r))
    ensures !Meet(inside, r).escaped
    decreases inside, 0
  {
    if inside == [] {
      assert Print(inside) + rest == rest;
    } else {
      var tail := Print(inside[1..]) + rest;
      assert Print(inside) + rest == PrintOne(inside[0]) + tail;
      match inside[0] {
        case Plain(c) =>
          PlainIsPassed(c, tail, r);
          InsideIsRead(inside[1..], rest, if c == '"' then r.(inQuotes := !r.inQuotes) else r);
        case Pair(c) =>
          PairIsPassed(c, tail, r);
          assert PrintOne(inside[0]) + tail == ['\\'] + ([c] + tail);
          InsideIsRead(inside[1..], rest, r);
        case Nested(more) =>
          CommentIsRead(more, tail, r);
          InsideIsRead(inside[1..], rest, Leave(Meet(more, Enter(r))));
      }
    }
  }

  lemma {:induction false} CommentIsRead(inside: seq<Piece>, rest: string, r: UnclosedComments.Reader)
    requires WellFormed(inside) && !r.escaped
    ensures UnclosedComments.Read(Comment(inside) + rest, r)
         == UnclosedComments.Read(rest, Leave(Meet(inside, Enter(r))))
    ensures !Leave(Meet(inside, Enter(r))).escaped
    decreases inside, 1
  {
    var closing := ")" + rest;
    assert Comment(inside) + rest == ['('] + (Print(inside) + closing);
    UnclosedComments.ReadOne('(', Print(inside) + closing, r);
    InsideIsRead(inside, closing, Enter(r));
    UnclosedComments.ReadOne(')', rest, Meet(inside, Enter(r)));
  }

  /** Where the quotes in nested comments are paired, the levels are the comment's own. */
  lemma {:induction false} PairedQuotesKeepTheLevel(inside: seq<Piece>, r: UnclosedComments.Reader)
    requires NestedPaired(inside)
    ensures Meet(inside, r) == r.(inQuotes := r.inQuotes != OddQuotes(inside))
    decreases inside
  {
    if inside != [] {
      match inside[0]
      case Plain(c) => PairedQuotesKeepTheLevel(inside[1..], if c == '"' then r.(inQuotes := !r.inQuotes) else r);
      case Pair(_) => PairedQuotesKeepTheLevel(inside[1..], r);
      case Nested(more) =>
        PairedQuotesKeepTheLevel(more, Enter(r));
        PairedQuotesKeepTheLevel(inside[1..], r);
    }
  }

  /** What is reported of a value that opens a comment, and of the complete comment.  With the
      quotes in nested comments paired, that is: unclosed until it is closed, and afterwards
      if and only if an odd number of quotes stands in the comment itself. */
  lemma UnclosedCommentIsDetected(inside: seq<Piece>)
    requires WellFormed(inside)
    ensures var met := Meet(inside, Enter(UnclosedComments.OPEN));
            && UnclosedComments.Read("(" + Print(inside), UnclosedComments.OPEN) == met
            && UnclosedComments.Read(Comment(inside), UnclosedComments.OPEN) == Leave(met)
            && (NestedPaired(inside) ==> met.depth == 1 && Leave(met).depth == if OddQuotes(inside) then 1 else 0)
  {
    var one := Enter(UnclosedComments.OPEN);
    assert ['('] + Print(inside) == "(" + Print(inside);
    UnclosedComments.ReadOne('(', Print(inside), UnclosedComments.OPEN);
    InsideIsRead(inside, "", one);
    assert Print(inside) + "" == Print(inside);
    CommentIsRead(inside, "", UnclosedComments.OPEN);
    assert Comment(inside) + "" == Comment(inside);
    if NestedPaired(inside) {
      PairedQuotesKeepTheLevel(inside, one);
    }
  }

  /** So a complete comment with a lone double quote is reported, although the other two
      scanners read it to its end. */
  lemma LoneQuoteIsMisread()
    ensures var inside := [Plain('n'), Plain('"'), Plain('t')];
            && Comment(inside) == "(n\"t)"
            && Closed(Comment(inside))
            && UnclosedComments.Read(Comment(inside), UnclosedComments.OPEN).depth == 1
  {
    var inside := [Plain('n'), Plain('"'), Plain('t')];
    assert inside[1..] == [Plain('"'), Plain('t')] && inside[1..][1..] == [Plain('t')] && inside[1..][1..][1..] == [];
    assert Print(inside[1..][1..]) == "t" && Print(inside[1..]) == "\"t" && Print(inside) == "n\"t";
    assert WellFormed(inside[1..][1..]) && WellFormed(inside[1..]) && WellFormed(inside);
    assert NestedPaired(inside[1..][1..]) && NestedPaired(inside[1..]) && NestedPaired(inside);
    assert !OddQuotes(inside[1..][1..]) && OddQuotes(inside[1..]) && OddQuotes(inside);
    UnclosedCommentIsDetected(inside);
    CommentIsClosed(inside);
  }
}
