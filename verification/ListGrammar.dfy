/** Mailbox-lists by their grammar: what the scanner takes for their entries. */
module ListGrammar {
  import opened Text
  import opened Scanner
  import opened AddrSpec
  import opened MailboxReading
  import CommentGrammar

  /** What an entry is made of: characters that mean nothing to the scanner, and
      quoted-strings, domain-literals and comments with anything in them. */
  datatype Token =
    | Plain(c: char)
    | Quoted(inside: string)
    | Literal(inside: string)
    | Remark(pieces: seq<CommentGrammar.Piece>)

  predicate IsToken(t: Token) {
    match t
    case Plain(c) => c !in ['"', '[', '(', ',']
    case Quoted(inside) => EscapedWithin(inside)
    case Literal(inside) => forall i :: 0 <= i < |inside| ==> inside[i] != ']'
    case Remark(pieces) => CommentGrammar.WellFormed(pieces)
  }

  function PrintToken(t: Token): string {
    match t
    case Plain(c) => [c]
    case Quoted(inside) => "\"" + inside + "\""
    case Literal(inside) => "[" + inside + "]"
    case Remark(pieces) => CommentGrammar.Comment(pieces)
  }

  function PrintEntry(tokens: seq<Token>): string {
    if tokens == [] then "" else PrintToken(tokens[0]) + PrintEntry(tokens[1..])
  }

  function PrintEntries(entries: seq<seq<Token>>): (r: seq<string>)
    ensures |r| == |entries|
  {
    if entries == [] then [] else [PrintEntry(entries[0])] + PrintEntries(entries[1..])
  }

  predicate IsEntry(tokens: seq<Token>) {
    forall i :: 0 <= i < |tokens| ==> IsToken(tokens[i])
  }

  lemma TokenIsClosed(t: Token)
    requires IsToken(t)
    ensures Closed(PrintToken(t))
  {
    match t
    case Plain(c) => PlainIsClosed([c]);
    case Quoted(inside) =>
      WellQuotedByParity(inside);
      QuotedIsClosed(inside);
    case Literal(inside) => BracketsAreClosed(inside);
    case Remark(pieces) => CommentGrammar.CommentIsClosed(pieces);
  }

  lemma BracketsAreClosed(inside: string)
    requires Lacks(inside, {']'})
    ensures Closed("[" + inside + "]")
  {
    var within := Scan(Mode.Literal, false);
    LiteralInterior(inside);
    CrossesOne('[', START);
    CrossesOne(']', within);
    CrossesConcat("[", inside, START, within, within);
    CrossesConcat("[" + inside, "]", START, within, START);
  }

  lemma {:induction false} EntryIsClosed(tokens: seq<Token>)
    requires IsEntry(tokens)
    ensures Closed(PrintEntry(tokens))
  {
    if tokens == [] {
      assert Split("", START) == [""];
    } else {
      TokenIsClosed(tokens[0]);
      EntryIsClosed(tokens[1..]);
      CrossesConcat(PrintToken(tokens[0]), PrintEntry(tokens[1..]), START, START, START);
    }
  }

  lemma {:induction false} AllAreClosed(entries: seq<seq<Token>>)
    requires forall i :: 0 <= i < |entries| ==> IsEntry(entries[i])
    ensures forall i :: 0 <= i < |entries| ==> Closed(PrintEntries(entries)[i])
  {
    if entries != [] {
      EntryIsClosed(entries[0]);
      AllAreClosed(entries[1..]);
    }
  }

  lemma {:induction false} ClosedJoinSplits(pieces: seq<string>)
    requires pieces != [] && forall i :: 0 <= i < |pieces| ==> Closed(pieces[i])
    ensures Split(Join(pieces, ","), START) == pieces && Run(Join(pieces, ","), START) == START
  {
    assert Closed(pieces[0]);
    if |pieces| == 1 {
      assert pieces == [pieces[0]];
    } else {
      var rest := Join(pieces[1..], ",");
      ClosedJoinSplits(pieces[1..]);
      SplitAtSeparator(pieces[0], rest, START);
      RunSnoc(pieces[0], ',', START);
      RunConcat(pieces[0] + ",", rest, START);
      assert pieces == [pieces[0]] + pieces[1..];
    }
  }

  /** However entries are made up of plain text, quoted-strings, domain-literals and comments,
      whatever commas those hold: the scanner finds exactly the commas between the entries,
      and nothing is open at the end. */
  lemma EntriesAreFound(entries: seq<seq<Token>>)
    requires entries != [] && forall i :: 0 <= i < |entries| ==> IsEntry(entries[i])
    ensures var s := Join(PrintEntries(entries), ",");
            Split(s, START) == PrintEntries(entries) && Run(s, START) == START
  {
    AllAreClosed(entries);
    ClosedJoinSplits(PrintEntries(entries));
  }
}
