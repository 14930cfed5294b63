/** The extracted text of a message preview, event by event. */
module PreviewText {
  import opened Wrappers
  import opened Preview

  predicate IsSuppressed(tag: string) {
    tag == "script" || tag == "style" || tag == "title" || tag == "blockquote"
  }

  /** How many suppressed elements are open in front of event `i`: an end tag closes one if
      one is open, and is stray otherwise. */
  function Open(events: seq<Event>, i: nat): nat
    requires i <= |events|
  {
    if i == 0 then 0
    else
      match events[i - 1]
      case StartTag(tag, _) => Open(events, i - 1) + if IsSuppressed(tag) then 1 else 0
      case EndTag(tag) =>
        if IsSuppressed(tag) && Open(events, i - 1) > 0 then Open(events, i - 1) - 1 else Open(events, i - 1)
      case _ => Open(events, i - 1)
  }

  /** What event `i` shows: data, and a tag that is really an autolink, outside suppressed
      elements. */
  function TextAt(events: seq<Event>, i: nat): string
    requires i < |events|
  {
    if Open(events, i) > 0 then ""
    else
      match events[i]
      case Data(text) => text
      case StartTag(tag, link) => if !IsSuppressed(tag) && link.Some? then link.value else ""
      case StartEndTag(tag, link) => if !IsSuppressed(tag) && link.Some? then link.value else ""
      case _ => ""
  }

  /** Whether event `i` separates words: any other tag, and any comment or declaration.  Inside
      suppressed elements, start tags of other elements do not. */
  predicate SeparatesAt(events: seq<Event>, i: nat)
    requires i < |events|
  {
    match events[i]
    case Data(_) => false
    case EndTag(_) => true
    case Mark => true
    case StartTag(tag, link) => IsSuppressed(tag) || (Open(events, i) == 0 && link.None?)
    case StartEndTag(tag, link) => IsSuppressed(tag) || (Open(events, i) == 0 && link.None?)
  }

  /** Event `i` shows something, nothing behind it before event `n` does, and between the two
      event `k` separates words. */
  predicate SeparatedBy(events: seq<Event>, i: nat, k: nat, n: nat)
    requires n <= |events|
  {
    && i < k < n && TextAt(events, i) != "" && SeparatesAt(events, k)
    && forall m :: i < m < n ==> TextAt(events, m) == ""
  }

  /** A word boundary lies in front of event `n`: behind everything shown before it. */
  predicate BoundaryBefore(events: seq<Event>, n: nat)
    requires n <= |events|
  {
    exists i, k :: 0 <= i < k < n && SeparatedBy(events, i, k, n)
  }

  /** What the first `n` events show, one blank between two texts with a boundary between. */
  function Joined(events: seq<Event>, n: nat): string
    requires n <= |events|
  {
    if n == 0 then ""
    else if TextAt(events, n - 1) == "" then Joined(events, n - 1)
    else Joined(events, n - 1) + (if BoundaryBefore(events, n - 1) then " " else "") + TextAt(events, n - 1)
  }

  lemma {:induction false} FeedSnoc(s: State, events: seq<Event>, e: Event)
    requires !s.enough
    ensures !Feed(s, events, None).enough
    ensures Feed(s, events + [e], None) == Handle(Feed(s, events, None), e, None)
    decreases |events|
  {
    if events == [] {
      assert (events + [e])[1..] == [];
      assert Feed(s, [e], None) == Feed(Handle(s, e, None), [], None);
    } else {
      assert (events + [e])[0] == events[0] && (events + [e])[1..] == events[1..] + [e];
      FeedSnoc(Handle(s, events[0], None), events[1..], e);
    }
  }

  /** Something among the first `n` events is shown. */
  predicate SomethingShown(events: seq<Event>, n: nat)
    requires n <= |events|
  {
    exists i :: 0 <= i < n && TextAt(events, i) != ""
  }

  lemma ShownStep(events: seq<Event>, n: nat)
    requires n < |events|
    ensures SomethingShown(events, n + 1) <==> SomethingShown(events, n) || TextAt(events, n) != ""
  {
  }

  lemma TextEndsBoundary(events: seq<Event>, n: nat)
    requires n < |events| && TextAt(events, n) != ""
    ensures !BoundaryBefore(events, n + 1)
  {
  }

  lemma SeparatedLonger(events: seq<Event>, i: nat, k: nat, n: nat)
    requires n < |events| && TextAt(events, n) == ""
    ensures SeparatedBy(events, i, k, n) ==> SeparatedBy(events, i, k, n + 1)
    ensures SeparatedBy(events, i, k, n + 1) && k < n ==> SeparatedBy(events, i, k, n)
  {
  }

  lemma BoundaryStays(events: seq<Event>, n: nat)
    requires n < |events| && TextAt(events, n) == ""
    requires BoundaryBefore(events, n) || (SomethingShown(events, n) && SeparatesAt(events, n))
    ensures BoundaryBefore(events, n + 1)
  {
    if BoundaryBefore(events, n) {
      var i, k :| 0 <= i < k < n && SeparatedBy(events, i, k, n);
      SeparatedLonger(events, i, k, n);
    } else {
      var i := LastShown(events, n);
      assert SeparatedBy(events, i, n, n + 1);
    }
  }

  lemma BoundaryWas(events: seq<Event>, n: nat)
    requires n < |events| && TextAt(events, n) == "" && BoundaryBefore(events, n + 1)
    ensures BoundaryBefore(events, n) || (SomethingShown(events, n) && SeparatesAt(events, n))
  {
    var i, k :| 0 <= i < k < n + 1 && SeparatedBy(events, i, k, n + 1);
    if k < n {
      SeparatedLonger(events, i, k, n);
    } else {
      assert TextAt(events, i) != "";
    }
  }

  lemma BoundaryStep(events: seq<Event>, n: nat)
    requires n < |events| && TextAt(events, n) == ""
    ensures BoundaryBefore(events, n + 1) <==>
              BoundaryBefore(events, n) || (SomethingShown(events, n) && SeparatesAt(events, n))
  {
    if BoundaryBefore(events, n + 1) {
      BoundaryWas(events, n);
    }
    if BoundaryBefore(events, n) || (SomethingShown(events, n) && SeparatesAt(events, n)) {
      BoundaryStays(events, n);
    }
  }

  lemma {:induction false} LastShown(events: seq<Event>, n: nat) returns (i: nat)
    requires n <= |events| && SomethingShown(events, n)
    ensures i < n && TextAt(events, i) != "" && forall m :: i < m < n ==> TextAt(events, m) == ""
  {
    if TextAt(events, n - 1) != "" {
      i := n - 1;
    } else {
      i := LastShown(events, n - 1);
    }
  }

  /** The state after the first `n` events says what they show. */
  ghost predicate Tells(s: State, events: seq<Event>, n: nat)
    requires n <= |events|
  {
    && Text(s.chunks) == Joined(events, n) && s.suppressDepth == Open(events, n) && !s.enough
    && (s.chunks != [] <==> SomethingShown(events, n))
    && (s.chunks != [] ==> (s.pendingSpace <==> BoundaryBefore(events, n)))
  }

  lemma TellsText(s: State, events: seq<Event>, n: nat)
    requires n < |events| && Tells(s, events, n) && TextAt(events, n) != ""
    ensures var r := AddText(s, TextAt(events, n), None);
            && Text(r.chunks) == Joined(events, n + 1) && r.chunks != [] && !r.pendingSpace
            && r.suppressDepth == s.suppressDepth && !r.enough
  {
    GapText(s);
    TextSnoc(WithGap(s).chunks, Run(TextAt(events, n)));
    if s.chunks == [] {
      NothingJoined(events, n);
    }
  }

  lemma GapText(s: State)
    ensures Text(WithGap(s).chunks) == Text(s.chunks) + if s.pendingSpace && s.chunks != [] then " " else ""
  {
    TextSnoc(s.chunks, Gap);
    assert Text(s.chunks) + "" == Text(s.chunks);
  }

  lemma NothingJoined(events: seq<Event>, n: nat)
    requires n <= |events| && !SomethingShown(events, n)
    ensures !BoundaryBefore(events, n)
  {
  }

  lemma TellsNext(s: State, events: seq<Event>, n: nat)
    requires n < |events| && Tells(s, events, n)
    ensures Tells(Handle(s, events[n], None), events, n + 1)
  {
    ShownStep(events, n);
    if TextAt(events, n) != "" {
      TextEndsBoundary(events, n);
      TellsText(s, events, n);
      ShownIsAdded(s, events, n);
    } else {
      BoundaryStep(events, n);
      NothingShownStep(s, events, n);
    }
  }

  lemma ShownIsAdded(s: State, events: seq<Event>, n: nat)
    requires n < |events| && s.suppressDepth == Open(events, n) && TextAt(events, n) != ""
    ensures Handle(s, events[n], None) == AddText(s, TextAt(events, n), None)
    ensures Open(events, n + 1) == Open(events, n)
  {
  }

  lemma NothingShownStep(s: State, events: seq<Event>, n: nat)
    requires n < |events| && s.suppressDepth == Open(events, n) && TextAt(events, n) == ""
    ensures var r := Handle(s, events[n], None);
            && r.chunks == s.chunks && r.enough == s.enough && r.suppressDepth == Open(events, n + 1)
            && r.pendingSpace == (s.pendingSpace || SeparatesAt(events, n))
  {
  }

  lemma {:induction false} FeedTells(events: seq<Event>, n: nat)
    requires n <= |events|
    ensures Tells(Feed(INITIAL, events[..n], None), events, n)
  {
    if n > 0 {
      FeedTells(events, n - 1);
      assert events[..n] == events[..n - 1] + [events[n - 1]];
      FeedSnoc(INITIAL, events[..n - 1], events[n - 1]);
      TellsNext(Feed(INITIAL, events[..n - 1], None), events, n - 1);
    }
  }

  /** Without a budget the text extracted is exactly what the events show, in order, with one
      blank wherever a tag, comment or declaration stands between two texts, and none at
      either end. */
  lemma FullTextIsJoined(events: seq<Event>)
    ensures StripHtml(events, None) == Joined(events, |events|)
  {
    FeedTells(events, |events|);
    assert events[..|events|] == events;
  }
}
