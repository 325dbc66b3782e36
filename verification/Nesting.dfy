/**
 A block that holds its own tag: when it closes before its own end, and what is emitted then.
 */
module Nesting {
  import opened Markdown
  import opened Outline
  import opened Text
  import opened Wrappers

  ghost predicate NodeShares(node: Node, end: TagEnd) {
    match node
    case Wrapped(tag, _, inside) => EndOf(tag) == end || Shares(inside, end)
    case Anchor(_, _, inside) => Shares(inside, end)
    case _ => false
  }

  /** Some node, at any depth, ends with `end`. */
  ghost predicate Shares(nodes: seq<Node>, end: TagEnd) {
    nodes != [] && (NodeShares(nodes[0], end) || Shares(nodes[1..], end))
  }

  ghost predicate Ends(events: seq<Located>, end: TagEnd) {
    exists k :: EndsAt(events, k, end)
  }

  lemma EndsAppend(a: seq<Located>, b: seq<Located>, end: TagEnd)
    ensures Ends(a + b, end) <==> Ends(a, end) || Ends(b, end)
  {
    if Ends(a + b, end) {
      var k :| EndsAt(a + b, k, end);
      assert EndsAt(a, k, end) || EndsAt(b, k - |a|, end);
    }
    if Ends(a, end) {
      var k :| EndsAt(a, k, end);
      assert EndsAt(a + b, k, end);
    }
    if Ends(b, end) {
      var k :| EndsAt(b, k, end);
      assert EndsAt(a + b, k + |a|, end);
    }
  }

  lemma EndsOne(e: Located, end: TagEnd)
    ensures Ends([e], end) <==> e.event == End(end)
  {
    if e.event == End(end) {
      assert EndsAt([e], 0, end);
    }
  }

  lemma EndsAround(tag: Tag, at: Span, inside: seq<Located>, end: TagEnd)
    ensures Ends(Around(tag, at, inside), end) <==> EndOf(tag) == end || Ends(inside, end)
  {
    var first, last := Located(Start(tag), at), Located(End(EndOf(tag)), at);
    EndsOne(first, end);
    EndsOne(last, end);
    EndsAppend([first], inside, end);
    EndsAppend([first] + inside, [last], end);
  }

  lemma {:induction false} SharesIsEnd(nodes: seq<Node>, end: TagEnd)
    requires IsBlockEnd(end)
    ensures Ends(Events(nodes), end) <==> Shares(nodes, end)
  {
    if nodes != [] {
      NodeSharesIsEnd(nodes[0], end);
      SharesIsEnd(nodes[1..], end);
      EndsAppend(NodeEvents(nodes[0]), Events(nodes[1..]), end);
    }
  }

  lemma {:induction false} NodeSharesIsEnd(node: Node, end: TagEnd)
    requires IsBlockEnd(end)
    ensures Ends(NodeEvents(node), end) <==> NodeShares(node, end)
  {
    match node {
      case Wrapped(tag, at, inside) =>
        SharesIsEnd(inside, end);
        EndsAround(tag, at, Events(inside), end);
      case Anchor(destination, at, inside) =>
        SharesIsEnd(inside, end);
        EndsAround(LinkTag(destination), at, Events(inside), end);
      case _ => EndsOne(NodeEvents(node)[0], end);
    }
  }

  /** A block waits for its own end exactly when nothing inside it ends the same way. */
  lemma ClosesAtOwnEnd(tag: Tag, at: Span, inside: seq<Node>)
    requires IsBlock(tag)
    ensures var events := Around(tag, at, Events(inside));
            && EndsAt(events, |events| - 1, EndOf(tag))
            && ((exists k :: k < |events| - 1 && EndsAt(events, k, EndOf(tag))) <==> Shares(inside, EndOf(tag)))
  {
    var end, inner := EndOf(tag), Events(inside);
    var events := Around(tag, at, inner);
    SharesIsEnd(inside, end);
    if Ends(inner, end) {
      var k :| EndsAt(inner, k, end);
      assert events[k + 1] == inner[k];
      assert EndsAt(events, k + 1, end);
    }
    if k :| k < |events| - 1 && EndsAt(events, k, end) {
      assert EndsAt(inner, k - 1, end);
    }
  }

  /**
   A block that holds its own tag is emitted at the first inner end of that tag, with only the
   text before it; the fold then has nothing open, although the block has not ended.
   */
  lemma ClosesEarly(tag: Tag, at: Span, inside: seq<Node>, s: FoldState) returns (k: nat)
    requires Resting(s) && IsBlock(tag) && tag != QuoteTag(true) && Shares(inside, EndOf(tag))
    requires Fold(s, Around(tag, at, Events(inside))).Success?
    ensures k < |Events(inside)| && EndsAt(Events(inside), k, EndOf(tag))
    ensures forall j :: 0 <= j < k ==> !EndsAt(Events(inside), j, EndOf(tag))
    ensures var begun := s.(open := Some(OpenBlock(KindOf(tag), "", at, EndOf(tag))));
            && Fold(begun, Events(inside)[..k]).Success? && Fold(begun, Events(inside)[..k + 1]).Success?
            && var after := Fold(begun, Events(inside)[..k + 1]).value;
               && after.state.open.None?
               && |after.blocks| > 0
               && (NoTable(Events(inside)[..k]) ==>
                     after.blocks[|after.blocks| - 1] == SourceBlock("", KindOf(tag), Trim(Payload(Events(inside)[..k])), at))
  {
    var end, inner := EndOf(tag), Events(inside);
    var begun := s.(open := Some(OpenBlock(KindOf(tag), "", at, end)));
    SharesIsEnd(inside, end);
    k := FirstEnd(inner, end);
    var first := Located(Start(tag), at);
    assert Around(tag, at, inner) == [first] + (inner[..k] + (inner[k..] + [Located(End(end), at)]));
    FoldAppend(s, [first], inner[..k] + (inner[k..] + [Located(End(end), at)]));
    FoldOne(s, first);
    FoldAppend(begun, inner[..k], inner[k..] + [Located(End(end), at)]);
    ClosesAtFirstEnd(begun, inner, k);
    assert "" + Payload(inner[..k]) == Payload(inner[..k]);
  }

  lemma {:induction false} FirstEnd(events: seq<Located>, end: TagEnd) returns (k: nat)
    requires Ends(events, end)
    ensures EndsAt(events, k, end) && forall j :: 0 <= j < k ==> !EndsAt(events, j, end)
  {
    var later :| EndsAt(events, later, end);
    if events[0].event == End(end) {
      k := 0;
    } else {
      assert EndsAt(events[1..], later - 1, end);
      var rest := FirstEnd(events[1..], end);
      k := rest + 1;
      assert forall j :: 1 <= j < k ==> events[j] == events[1..][j - 1] && !EndsAt(events[1..], j - 1, end);
    }
  }
}
