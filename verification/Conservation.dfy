/**
 Which words of a document reach a block: for every event stream, and for every tree, the
 exact condition under which none is lost.
 */
module Conservation {
  import opened Markdown
  import opened Numbering
  import opened Outline
  import opened Text
  import opened Wrappers

  // ----- where words go, told from the tags alone -----

  /** The end an open block waits for, if one is open, and whether a cell is being read. */
  datatype Place = Place(awaits: Option<TagEnd>, inCell: bool) {
    predicate Keeps() {
      awaits.Some? || inCell
    }
  }

  /** The end a block waits for when `tag` opens it. */
  function Awaited(tag: Tag): Option<TagEnd> {
    match tag
    case HeadingTag(level) => Some(HeadingEnd(level))
    case ParagraphTag => Some(ParagraphEnd)
    case ItemTag => Some(ItemEnd)
    case QuoteTag(_) => Some(QuoteEnd(false))
    case FencedTag(_) => Some(CodeBlockEnd)
    case IndentedTag => Some(CodeBlockEnd)
    case TableTag => Some(TableEnd)
    case _ => None
  }

  /** Inside an open block a tag changes nothing. */
  function AfterStart(awaits: Option<TagEnd>, tag: Tag): Option<TagEnd> {
    if awaits.Some? then awaits else Awaited(tag)
  }

  function AfterEnd(awaits: Option<TagEnd>, end: TagEnd): Option<TagEnd> {
    if awaits == Some(end) then None else awaits
  }

  function Moved(p: Place, e: Event): Place {
    match e
    case Start(tag) => Place(AfterStart(p.awaits, tag), p.inCell || tag.CellTag?)
    case End(end) => Place(AfterEnd(p.awaits, end), p.inCell && !end.CellEnd?)
    case _ => p
  }

  function PlaceAfter(p: Place, events: seq<Located>): Place
    decreases |events|
  {
    if events == [] then p else PlaceAfter(Moved(p, events[0].event), events[1..])
  }

  /** The words an event carries; a break carries none. */
  function Carried(e: Event): string {
    match e
    case Words(text) => text
    case Code(text) => text
    case _ => ""
  }

  function CarriedBy(events: seq<Located>): string {
    if events == [] then "" else Carried(events[0].event) + CarriedBy(events[1..])
  }

  /** No word arrives while neither a block nor a cell is open. */
  ghost predicate Housed(p: Place, events: seq<Located>) {
    forall k :: 0 <= k < |events| && !Blank(Carried(events[k].event)) ==> PlaceAfter(p, events[..k]).Keeps()
  }

  function PlaceOf(s: FoldState): Place {
    Place(if s.open.Some? then Some(s.open.value.closesOn) else None, s.cell.Some?)
  }

  /** What every state of the fold satisfies: only a container is open, and it waits for a block's end. */
  ghost predicate Proper(s: FoldState) {
    s.open.Some? ==> IsBlockEnd(s.open.value.closesOn) && Rank(s.open.value.kind) == 2
  }

  lemma BeginMoves(s: FoldState, tag: Tag, at: Span)
    requires Proper(s) && Begin(s, tag, at).Success?
    ensures Proper(Begin(s, tag, at).value.state) && PlaceOf(Begin(s, tag, at).value.state) == Moved(PlaceOf(s), Start(tag))
  {}

  lemma FinishMoves(s: FoldState, end: TagEnd)
    requires Proper(s) && Finish(s, end).Success?
    ensures Proper(Finish(s, end).value.state) && PlaceOf(Finish(s, end).value.state) == Moved(PlaceOf(s), End(end))
  {}

  /** The tags alone say at every event whether a block or a cell is open. */
  lemma StepMoves(s: FoldState, e: Located)
    requires Proper(s) && Step(s, e).Success?
    ensures Proper(Step(s, e).value.state) && PlaceOf(Step(s, e).value.state) == Moved(PlaceOf(s), e.event)
  {
    match e.event {
      case Start(tag) => BeginMoves(s, tag, e.span);
      case End(end) => FinishMoves(s, end);
      case _ =>
    }
  }

  // ----- letters -----

  /** The letters of a text: all but its white space. */
  function Ink(text: string): string {
    if text == "" then "" else (if IsWhitespace(text[0]) then "" else [text[0]]) + Ink(text[1..])
  }

  lemma {:induction false} InkAppend(a: string, b: string)
    ensures Ink(a + b) == Ink(a) + Ink(b)
  {
    if a == "" {
      assert a + b == b;
    } else {
      TailOfAppend(a, b);
      InkAppend(a[1..], b);
      Associate(if IsWhitespace(a[0]) then "" else [a[0]], Ink(a[1..]), Ink(b));
    }
  }

  lemma {:induction false} InkBlank(text: string)
    ensures Ink(text) == "" <==> Blank(text)
  {
    if text != "" {
      InkBlank(text[1..]);
      assert text == [text[0]] + text[1..];
    }
  }

  /** Trimming loses no letter. */
  lemma InkTrim(text: string)
    ensures Ink(Trim(text)) == Ink(text)
  {
    InkTrimStart(text);
    InkTrimEnd(TrimStart(text));
  }

  lemma {:induction false} InkTrimStart(text: string)
    ensures Ink(TrimStart(text)) == Ink(text)
  {
    if text != "" && IsWhitespace(text[0]) {
      InkTrimStart(text[1..]);
    }
  }

  lemma {:induction false} InkTrimEnd(text: string)
    ensures Ink(TrimEnd(text)) == Ink(text)
  {
    if text != "" && IsWhitespace(text[|text| - 1]) {
      var init := text[..|text| - 1];
      InkTrimEnd(init);
      InkAppend(init, [text[|text| - 1]]);
      InkBlank([text[|text| - 1]]);
      assert text == init + [text[|text| - 1]];
    }
  }

  // ----- every stream -----

  /** By how much the cell being read, or else the open block, has grown. */
  function Gain(before: FoldState, after: FoldState): string {
    if before.cell.Some? && after.cell.Some? && before.cell.value <= after.cell.value then after.cell.value[|before.cell.value|..]
    else if before.cell.None? && before.open.Some? && after.open.Some? && before.open.value.text <= after.open.value.text
    then after.open.value.text[|before.open.value.text|..]
    else ""
  }

  /** What one event adds, if it carries words. */
  function Gained(s: FoldState, e: Located): string
    requires Step(s, e).Success?
  {
    if Carried(e.event) == "" then "" else Gain(s, Step(s, e).value.state)
  }

  /** What cells and open blocks receive at the events that carry words. */
  function Received(s: FoldState, events: seq<Located>): string
    decreases |events|
  {
    if events == [] || Step(s, events[0]).Failure? then ""
    else Gained(s, events[0]) + Received(Step(s, events[0]).value.state, events[1..])
  }

  lemma StepReceives(s: FoldState, e: Located)
    requires Carried(e.event) != "" && Step(s, e).Success?
    ensures Gain(s, Step(s, e).value.state) == if PlaceOf(s).Keeps() then Carried(e.event) else ""
  {}

  /** All letters reach a cell or an open block, in order, if and only if no word arrives with nothing open. */
  lemma {:induction false} ReceivedWhenHoused(s: FoldState, events: seq<Located>)
    requires Proper(s) && Fold(s, events).Success?
    ensures |Ink(Received(s, events))| <= |Ink(CarriedBy(events))|
    ensures Ink(Received(s, events)) == Ink(CarriedBy(events)) <==> Housed(PlaceOf(s), events)
    decreases |events|
  {
    if events != [] {
      var e, rest := events[0], events[1..];
      var next := Step(s, e).value.state;
      StepMoves(s, e);
      ReceivedWhenHoused(next, rest);
      HousedNext(PlaceOf(s), events);
      var gained := Gained(s, e);
      if Carried(e.event) != "" { StepReceives(s, e); }
      InkAppend(gained, Received(next, rest));
      InkAppend(Carried(e.event), CarriedBy(rest));
      InkBlank(Carried(e.event));
      CompareParts(Ink(gained), Ink(Received(next, rest)), Ink(Carried(e.event)), Ink(CarriedBy(rest)));
    }
  }

  /** Of two parts each no longer than its counterpart, and the first one all or nothing. */
  lemma CompareParts(a: string, b: string, c: string, d: string)
    requires (a == c || a == "") && |b| <= |d|
    ensures |a + b| <= |c + d| && (a + b == c + d <==> a == c && b == d)
  {
    if a + b == c + d {
      assert |a| == |c|;
      assert (a + b)[..|a|] == a && (c + d)[..|a|] == c;
      assert (a + b)[|a|..] == b && (c + d)[|a|..] == d;
    }
  }

  lemma HousedNext(p: Place, events: seq<Located>)
    requires events != []
    ensures Housed(p, events) <==>
              (Blank(Carried(events[0].event)) || p.Keeps()) && Housed(Moved(p, events[0].event), events[1..])
  {
    var rest, next := events[1..], Moved(p, events[0].event);
    forall k | 0 <= k < |rest| ensures PlaceAfter(next, rest[..k]) == PlaceAfter(p, events[..k + 1]) {
      assert events[..k + 1][1..] == rest[..k];
    }
    if Housed(p, events) {
      assert !Blank(Carried(events[0].event)) ==> PlaceAfter(p, events[..0]).Keeps();
      forall k | 0 <= k < |rest| && !Blank(Carried(rest[k].event)) ensures PlaceAfter(next, rest[..k]).Keeps() {
        assert rest[k] == events[k + 1];
      }
    }
    if (Blank(Carried(events[0].event)) || p.Keeps()) && Housed(next, rest) {
      forall k | 0 <= k < |events| && !Blank(Carried(events[k].event)) ensures PlaceAfter(p, events[..k]).Keeps() {
        if k > 0 {
          assert rest[k - 1] == events[k];
          assert PlaceAfter(next, rest[..k - 1]).Keeps();
        }
      }
    }
  }

  /** The text of an open block. */
  function Held(s: FoldState): string {
    if s.open.Some? then s.open.value.text else ""
  }

  /** What the containers among the blocks say; a link or a code span repeats its container. */
  function SaidBy(blocks: seq<SourceBlock>): string {
    if blocks == [] then "" else (if Rank(blocks[0].kind) == 2 then blocks[0].text else "") + SaidBy(blocks[1..])
  }

  lemma {:induction false} SaidByAppend(a: seq<SourceBlock>, b: seq<SourceBlock>)
    ensures SaidBy(a + b) == SaidBy(a) + SaidBy(b)
  {
    if a == [] {
      assert a + b == b;
    } else {
      TailOfAppend(a, b);
      SaidByAppend(a[1..], b);
      Associate(if Rank(a[0].kind) == 2 then a[0].text else "", SaidBy(a[1..]), SaidBy(b));
    }
  }

  lemma OneSays(b: SourceBlock)
    ensures SaidBy([b]) == if Rank(b.kind) == 2 then b.text else ""
  {
    assert [b][1..] == [] && b.text + "" == b.text;
  }

  lemma BeginConserves(s: FoldState, tag: Tag, at: Span)
    requires s.cell.None? && !tag.CellTag? && Begin(s, tag, at).Success?
    ensures var next := Begin(s, tag, at).value;
            next.blocks == [] && next.state.cell.None? && Held(next.state) == Held(s)
  {}

  lemma FinishConserves(s: FoldState, end: TagEnd)
    requires Proper(s) && s.cell.None? && !end.RowEnd? && Finish(s, end).Success?
    ensures var next := Finish(s, end).value;
            next.state.cell.None? && Ink(Held(s)) == Ink(SaidBy(next.blocks)) + Ink(Held(next.state))
  {
    var next := Finish(s, end).value;
    if next.blocks != [] {
      OneSays(next.blocks[0]);
      InkTrim(Held(s));
      assert next.blocks == [next.blocks[0]];
    }
  }

  lemma WordsConserve(s: FoldState, e: Located, words: string)
    requires s.cell.None? && (e.event == Words(words) || e.event == Code(words))
    ensures var next := Step(s, e).value;
            && next.state.cell.None? && SaidBy(next.blocks) == ""
            && Ink(Held(s)) + Ink(Gained(s, e)) == Ink(Held(next.state))
  {
    if words != "" { StepReceives(s, e); }
    if e.event.Code? { OneSays(Step(s, e).value.blocks[0]); }
    InkAppend(Held(s), words);
    assert Held(s) + "" == Held(s);
  }

  lemma BreakConserves(s: FoldState)
    ensures Ink(Held(WithBreak(s))) == Ink(Held(s))
  {
    InkAppend(Held(s), " ");
    InkBlank(" ");
  }

  /** Outside tables, one event moves letters from the open block to a pushed one and adds what was received. */
  lemma StepConserves(s: FoldState, e: Located)
    requires Proper(s) && s.cell.None? && e.event != Start(CellTag) && e.event != End(RowEnd) && Step(s, e).Success?
    ensures var next := Step(s, e).value;
            next.state.cell.None? && Ink(Held(s)) + Ink(Gained(s, e)) == Ink(SaidBy(next.blocks)) + Ink(Held(next.state))
  {
    match e.event {
      case Start(tag) => BeginConserves(s, tag, e.span);
      case End(end) => FinishConserves(s, end);
      case Words(text) => WordsConserve(s, e, text);
      case Code(text) => WordsConserve(s, e, text);
      case _ => BreakConserves(s);
    }
  }

  /** Outside tables, pushed containers and the open block hold exactly the letters received, in order. */
  lemma {:induction false} BlocksHoldWhatIsReceived(s: FoldState, events: seq<Located>)
    requires Proper(s) && s.cell.None? && NoTable(events) && Fold(s, events).Success?
    ensures var folded := Fold(s, events).value;
            Ink(SaidBy(folded.blocks)) + Ink(Held(folded.state)) == Ink(Held(s)) + Ink(Received(s, events))
    decreases |events|
  {
    if events != [] {
      var e, rest := events[0], events[1..];
      var step := Step(s, e).value;
      assert NoTable(rest) && e.event != Start(CellTag) && e.event != End(RowEnd);
      StepMoves(s, e);
      StepConserves(s, e);
      BlocksHoldWhatIsReceived(step.state, rest);
      var gained := Gained(s, e);
      InkAppend(gained, Received(step.state, rest));
      SaidByAppend(step.blocks, Fold(step.state, rest).value.blocks);
      InkAppend(SaidBy(step.blocks), SaidBy(Fold(step.state, rest).value.blocks));
      Regroup(Ink(Held(s)), Ink(gained), Ink(Received(step.state, rest)), Ink(SaidBy(step.blocks)), Ink(Held(step.state)),
              Ink(SaidBy(Fold(step.state, rest).value.blocks)), Ink(Held(Fold(step.state, rest).value.state)));
    }
  }

  lemma Regroup(held: string, gained: string, received: string, said: string, held': string, said': string, last: string)
    requires held + gained == said + held' && said' + last == held' + received
    ensures said + said' + last == held + (gained + received)
  {
    assert said + said' + last == said + (said' + last);
    assert said + (held' + received) == (said + held') + received;
    assert (held + gained) + received == held + (gained + received);
  }

  /**
   For every stream without a table, well nested or not: the pushed containers and the block
   left open hold all letters of the stream, in order, if and only if no word arrives while
   no block is open.
   */
  lemma WordsReachBlocks(s: FoldState, events: seq<Located>)
    requires Resting(s) && NoTable(events) && Fold(s, events).Success?
    ensures var folded := Fold(s, events).value;
            Ink(SaidBy(folded.blocks) + Held(folded.state)) == Ink(CarriedBy(events)) <==> Housed(PlaceOf(s), events)
  {
    var folded := Fold(s, events).value;
    BlocksHoldWhatIsReceived(s, events);
    ReceivedWhenHoused(s, events);
    InkAppend(SaidBy(folded.blocks), Held(folded.state));
    var received := Ink(Received(s, events));
    assert Held(s) == "" && Ink("") + received == received;
  }

  // ----- every tree -----

  function NodeLeaves(node: Node, awaits: Option<TagEnd>): Option<TagEnd> {
    match node
    case Wrapped(tag, _, inside) => AfterEnd(Leaves(inside, AfterStart(awaits, tag)), EndOf(tag))
    case Anchor(_, _, inside) => Leaves(inside, awaits)
    case _ => awaits
  }

  /** The end awaited after the nodes, when `awaits` is awaited before them. */
  function Leaves(nodes: seq<Node>, awaits: Option<TagEnd>): Option<TagEnd> {
    if nodes == [] then awaits else Leaves(nodes[1..], NodeLeaves(nodes[0], awaits))
  }

  ghost predicate NodeSheltered(node: Node, awaits: Option<TagEnd>) {
    match node
    case Plain(text, _) => awaits.Some? || Blank(text)
    case CodeSpan(text, _) => awaits.Some? || Blank(text)
    case Wrapped(tag, _, inside) => Sheltered(inside, AfterStart(awaits, tag))
    case Anchor(_, _, inside) => Sheltered(inside, awaits)
    case _ => true
  }

  /** No bare words stand after an inner end of the awaited tag, outside another block. */
  ghost predicate Sheltered(nodes: seq<Node>, awaits: Option<TagEnd>) {
    nodes != [] ==> NodeSheltered(nodes[0], awaits) && Sheltered(nodes[1..], NodeLeaves(nodes[0], awaits))
  }

  ghost predicate NodeTableFree(node: Node) {
    match node
    case Wrapped(tag, _, inside) => (IsBlock(tag) || IsTransparent(tag) || tag.ForeignTag?) && TableFree(inside)
    case Anchor(_, _, inside) => TableFree(inside)
    case _ => true
  }

  ghost predicate TableFree(nodes: seq<Node>) {
    nodes != [] ==> NodeTableFree(nodes[0]) && TableFree(nodes[1..])
  }

  /** Only blocks are awaited. */
  ghost predicate AwaitsBlock(awaits: Option<TagEnd>) {
    awaits.Some? ==> IsBlockEnd(awaits.value)
  }

  lemma {:induction false} PlaceAppend(p: Place, a: seq<Located>, b: seq<Located>)
    ensures PlaceAfter(p, a + b) == PlaceAfter(PlaceAfter(p, a), b)
    decreases |a|
  {
    if a == [] {
      assert a + b == b;
    } else {
      TailOfAppend(a, b);
      PlaceAppend(Moved(p, a[0].event), a[1..], b);
    }
  }

  lemma {:induction false} HousedAppend(p: Place, a: seq<Located>, b: seq<Located>)
    ensures Housed(p, a + b) <==> Housed(p, a) && Housed(PlaceAfter(p, a), b)
    decreases |a|
  {
    if a == [] {
      assert a + b == b;
    } else {
      TailOfAppend(a, b);
      HousedNext(p, a + b);
      HousedNext(p, a);
      HousedAppend(Moved(p, a[0].event), a[1..], b);
    }
  }

  lemma HousedOne(p: Place, e: Located)
    ensures Housed(p, [e]) <==> Blank(Carried(e.event)) || p.Keeps()
    ensures PlaceAfter(p, [e]) == Moved(p, e.event)
  {
    HousedNext(p, [e]);
    assert [e][1..] == [];
  }

  lemma HousedAround(p: Place, tag: Tag, at: Span, inside: seq<Located>)
    ensures Housed(p, Around(tag, at, inside)) <==> Housed(Moved(p, Start(tag)), inside)
    ensures PlaceAfter(p, Around(tag, at, inside)) == Moved(PlaceAfter(Moved(p, Start(tag)), inside), End(EndOf(tag)))
  {
    var first, last := Located(Start(tag), at), Located(End(EndOf(tag)), at);
    HousedOne(p, first);
    HousedAppend(p, [first], inside);
    PlaceAppend(p, [first], inside);
    HousedAppend(p, [first] + inside, [last]);
    HousedOne(PlaceAfter(p, [first] + inside), last);
    PlaceAppend(p, [first] + inside, [last]);
  }

  lemma {:induction false} NodesAreHoused(nodes: seq<Node>, awaits: Option<TagEnd>)
    requires TableFree(nodes) && AwaitsBlock(awaits)
    ensures AwaitsBlock(Leaves(nodes, awaits)) && PlaceAfter(Place(awaits, false), Events(nodes)) == Place(Leaves(nodes, awaits), false)
    ensures Housed(Place(awaits, false), Events(nodes)) <==> Sheltered(nodes, awaits)
  {
    if nodes != [] {
      var node, rest := nodes[0], nodes[1..];
      NodeIsHoused(node, awaits);
      NodesAreHoused(rest, NodeLeaves(node, awaits));
      PlaceAppend(Place(awaits, false), NodeEvents(node), Events(rest));
      HousedAppend(Place(awaits, false), NodeEvents(node), Events(rest));
    }
  }

  lemma {:induction false} NodeIsHoused(node: Node, awaits: Option<TagEnd>)
    requires NodeTableFree(node) && AwaitsBlock(awaits)
    ensures AwaitsBlock(NodeLeaves(node, awaits)) && PlaceAfter(Place(awaits, false), NodeEvents(node)) == Place(NodeLeaves(node, awaits), false)
    ensures Housed(Place(awaits, false), NodeEvents(node)) <==> NodeSheltered(node, awaits)
  {
    match node {
      case Wrapped(tag, at, inside) =>
        NodesAreHoused(inside, AfterStart(awaits, tag));
        HousedAround(Place(awaits, false), tag, at, Events(inside));
      case Anchor(destination, at, inside) =>
        NodesAreHoused(inside, awaits);
        HousedAround(Place(awaits, false), LinkTag(destination), at, Events(inside));
      case _ => HousedOne(Place(awaits, false), NodeEvents(node)[0]);
    }
  }

  lemma {:induction false} CarriedAppend(a: seq<Located>, b: seq<Located>)
    ensures CarriedBy(a + b) == CarriedBy(a) + CarriedBy(b)
  {
    if a == [] {
      assert a + b == b;
    } else {
      TailOfAppend(a, b);
      CarriedAppend(a[1..], b);
      Associate(Carried(a[0].event), CarriedBy(a[1..]), CarriedBy(b));
    }
  }

  lemma CarriedOne(e: Located)
    ensures CarriedBy([e]) == Carried(e.event)
  {
    assert [e][1..] == [] && Carried(e.event) + "" == Carried(e.event);
  }

  lemma CarriedAround(tag: Tag, at: Span, inside: seq<Located>)
    ensures CarriedBy(Around(tag, at, inside)) == CarriedBy(inside)
  {
    var first, last := Located(Start(tag), at), Located(End(EndOf(tag)), at);
    CarriedOne(first);
    CarriedOne(last);
    CarriedAppend([first], inside);
    CarriedAppend([first] + inside, [last]);
    assert "" + CarriedBy(inside) + "" == CarriedBy(inside);
  }

  /** The events of nodes carry the nodes' words, and no table of theirs. */
  lemma {:induction false} NodesCarry(nodes: seq<Node>)
    requires TableFree(nodes)
    ensures CarriedBy(Events(nodes)) == LabelOf(nodes) && NoTable(Events(nodes))
  {
    if nodes != [] {
      NodeCarries(nodes[0]);
      NodesCarry(nodes[1..]);
      CarriedAppend(NodeEvents(nodes[0]), Events(nodes[1..]));
    }
  }

  lemma {:induction false} NodeCarries(node: Node)
    requires NodeTableFree(node)
    ensures CarriedBy(NodeEvents(node)) == NodeSays(node, "") && NoTable(NodeEvents(node))
  {
    match node {
      case Wrapped(tag, at, inside) =>
        NodesCarry(inside);
        CarriedAround(tag, at, Events(inside));
      case Anchor(destination, at, inside) =>
        NodesCarry(inside);
        CarriedAround(LinkTag(destination), at, Events(inside));
      case _ => CarriedOne(NodeEvents(node)[0]);
    }
  }

  function ForeignAt(e: Located): Option<CompileError> {
    match e.event
    case Start(tag) => if tag.ForeignTag? then Some(UnsupportedStructure(tag.structure, e.span.start)) else None
    case Foreign(structure) => Some(UnsupportedStructure(structure, e.span.start))
    case _ => None
  }

  /** The first structure among the events that no block kind covers, by its tag or by its event. */
  function FirstForeign(events: seq<Located>): Option<CompileError> {
    if events == [] then None else Or(ForeignAt(events[0]), FirstForeign(events[1..]))
  }

  /** No table row or head ends among the events, so none can be refused for an empty cell. */
  ghost predicate NoRows(events: seq<Located>) {
    forall i :: 0 <= i < |events| ==> events[i].event != End(HeadEnd) && events[i].event != End(RowEnd)
  }

  /** Outside tables every stream, well nested or not, is refused exactly at its first foreign structure. */
  lemma {:induction false} RefusedAtFirstForeign(s: FoldState, events: seq<Located>)
    requires NoRows(events)
    ensures if FirstForeign(events).Some? then Fold(s, events) == Failure(FirstForeign(events).value) else Fold(s, events).Success?
    decreases |events|
  {
    if events != [] {
      assert events[0].event != End(HeadEnd) && events[0].event != End(RowEnd);
      StepRefuses(s, events[0]);
      if Step(s, events[0]).Success? {
        RefusedAtFirstForeign(Step(s, events[0]).value.state, events[1..]);
      }
    }
  }

  lemma StepRefuses(s: FoldState, e: Located)
    requires e.event != End(HeadEnd) && e.event != End(RowEnd)
    ensures if ForeignAt(e).Some? then Step(s, e) == Failure(ForeignAt(e).value) else Step(s, e).Success?
  {}

  lemma {:induction false} ForeignAppend(a: seq<Located>, b: seq<Located>)
    ensures FirstForeign(a + b) == Or(FirstForeign(a), FirstForeign(b))
  {
    if a == [] {
      assert a + b == b;
    } else {
      TailOfAppend(a, b);
      ForeignAppend(a[1..], b);
    }
  }

  lemma ForeignOne(e: Located)
    ensures FirstForeign([e]) == ForeignAt(e)
  {
    assert [e][1..] == [];
  }

  lemma ForeignAround(tag: Tag, at: Span, inside: seq<Located>)
    ensures FirstForeign(Around(tag, at, inside)) ==
              if tag.ForeignTag? then Some(UnsupportedStructure(tag.structure, at.start)) else FirstForeign(inside)
  {
    var first, last := Located(Start(tag), at), Located(End(EndOf(tag)), at);
    ForeignOne(first);
    ForeignOne(last);
    ForeignAppend([first], inside);
    ForeignAppend([first] + inside, [last]);
  }

  /** The events of nodes carry the nodes' faults, and no table's. */
  lemma {:induction false} NodesRefuse(nodes: seq<Node>)
    requires TableFree(nodes)
    ensures FirstForeign(Events(nodes)) == Fault(nodes) && NoRows(Events(nodes))
  {
    if nodes != [] {
      NodeRefuses(nodes[0]);
      NodesRefuse(nodes[1..]);
      ForeignAppend(NodeEvents(nodes[0]), Events(nodes[1..]));
    }
  }

  lemma {:induction false} NodeRefuses(node: Node)
    requires NodeTableFree(node)
    ensures FirstForeign(NodeEvents(node)) == NodeFault(node) && NoRows(NodeEvents(node))
  {
    match node {
      case Wrapped(tag, at, inside) =>
        NodesRefuse(inside);
        ForeignAround(tag, at, Events(inside));
      case Anchor(destination, at, inside) =>
        NodesRefuse(inside);
        ForeignAround(LinkTag(destination), at, Events(inside));
      case _ => ForeignOne(NodeEvents(node)[0]);
    }
  }

  /**
   Every tree without a table, whatever holds what, is refused exactly at its first fault.
   Otherwise the pushed containers and the block left open hold all its letters, in order, if
   and only if no bare words stand outside every open block, an inner end of the awaited tag
   having closed it.
   */
  lemma TreesKeepTheirWords(nodes: seq<Node>, s: FoldState)
    requires Resting(s) && TableFree(nodes)
    ensures var r := Fold(s, Events(nodes));
            if Fault(nodes).Some? then r == Failure(Fault(nodes).value)
            else
              && r.Success?
              && (Ink(SaidBy(r.value.blocks) + Held(r.value.state)) == Ink(LabelOf(nodes)) <==> Sheltered(nodes, None))
  {
    NodesRefuse(nodes);
    RefusedAtFirstForeign(s, Events(nodes));
    if Fault(nodes).None? {
      NodesCarry(nodes);
      NodesAreHoused(nodes, None);
      WordsReachBlocks(s, Events(nodes));
    }
  }

  /** Where no block holds its own tag, no words are outside. */
  lemma {:induction false} InnerIsSheltered(nodes: seq<Node>, closesOn: TagEnd, inLink: bool, inCell: bool)
    requires Inner(nodes, closesOn, inLink, inCell) && Fault(nodes).None?
    ensures Sheltered(nodes, Some(closesOn)) && Leaves(nodes, Some(closesOn)) == Some(closesOn)
  {
    if nodes != [] {
      NodeInnerIsSheltered(nodes[0], closesOn, inLink, inCell);
      InnerIsSheltered(nodes[1..], closesOn, inLink, inCell);
    }
  }

  lemma {:induction false} NodeInnerIsSheltered(node: Node, closesOn: TagEnd, inLink: bool, inCell: bool)
    requires NodeInner(node, closesOn, inLink, inCell) && NodeFault(node).None?
    ensures NodeSheltered(node, Some(closesOn)) && NodeLeaves(node, Some(closesOn)) == Some(closesOn)
  {
    match node {
      case Wrapped(_, _, inside) => InnerIsSheltered(inside, closesOn, inLink, inCell);
      case Anchor(_, _, inside) => InnerIsSheltered(inside, closesOn, true, inCell);
      case _ =>
    }
  }

  // ----- two items that hold an item -----

  lemma Next(s: FoldState, all: seq<Located>, k: nat, next: FoldState)
    requires k < |all| && Step(s, all[k]) == Done(next)
    ensures Fold(s, all[k..]) == Fold(next, all[k + 1..])
  {
    assert all[k..][1..] == all[k + 1..];
    var rest := Fold(next, all[k + 1..]);
    assert rest.Success? ==> [] + rest.value.blocks == rest.value.blocks;
  }

  lemma ThreeEvents(a: Node, b: Node, c: Node)
    ensures Events([a, b, c]) == NodeEvents(a) + NodeEvents(b) + NodeEvents(c)
  {
    assert [a, b, c][1..] == [b, c] && [b, c][1..] == [c];
    OneNode(c, "");
    Associate(NodeEvents(a), NodeEvents(b), NodeEvents(c));
  }

  /** An item that goes on with a paragraph after its inner list. */
  function LooseItem(a: string, b: string, c: string, at: Span): seq<Node> {
    [Plain(a, at), Wrapped(ListTag(false), at, [Wrapped(ItemTag, at, [Plain(b, at)])]), Wrapped(ParagraphTag, at, [Plain(c, at)])]
  }

  function LooseEvents(a: string, b: string, c: string, at: Span): seq<Located> {
    [Located(Start(ItemTag), at), Located(Words(a), at), Located(Start(ListTag(false)), at), Located(Start(ItemTag), at),
     Located(Words(b), at), Located(End(ItemEnd), at), Located(End(ListEnd(false)), at), Located(Start(ParagraphTag), at),
     Located(Words(c), at), Located(End(ParagraphEnd), at), Located(End(ItemEnd), at)]
  }

  lemma EventsOfLooseItem(a: string, b: string, c: string, at: Span)
    ensures Around(ItemTag, at, Events(LooseItem(a, b, c, at))) == LooseEvents(a, b, c, at)
  {
    var nodes := LooseItem(a, b, c, at);
    ThreeEvents(nodes[0], nodes[1], nodes[2]);
    OneNode(Plain(b, at), "");
    OneNode(nodes[1].inside[0], "");
    OneNode(Plain(c, at), "");
  }

  /** The rest of the outer item is emitted apart from it, as a paragraph of its own. */
  lemma LooseItemSplits(a: string, b: string, c: string, at: Span)
    ensures Fold(IDLE, Around(ItemTag, at, Events(LooseItem(a, b, c, at)))) ==
              Success(Folded(IDLE, [SourceBlock("", ListItem, Trim(a + b), at), SourceBlock("", Paragraph, Trim(c), at)]))
  {
    EventsOfLooseItem(a, b, c, at);
    var first, second := SourceBlock("", ListItem, Trim(a + b), at), SourceBlock("", Paragraph, Trim(c), at);
    UpToInnerItem(LooseEvents(a, b, c, at), a, b, at);
    AfterLooseItem(LooseEvents(a, b, c, at), c, at);
    assert [first] + [second] == [first, second];
  }

  /** The state inside an item that has said `text`. */
  function InItem(text: string, at: Span): FoldState {
    IDLE.(open := Some(OpenBlock(ListItem, text, at, ItemEnd)))
  }

  lemma ItemOpens(all: seq<Located>, a: string, at: Span)
    requires |all| > 3 && all[0] == Located(Start(ItemTag), at) && all[1].event == Words(a)
    requires all[2].event == Start(ListTag(false)) && all[3].event == Start(ItemTag)
    ensures Fold(IDLE, all) == Fold(InItem(a, at), all[4..])
  {
    assert "" + a == a && all[0..] == all;
    Next(IDLE, all, 0, InItem("", at));
    Next(InItem("", at), all, 1, InItem(a, at));
    Next(InItem(a, at), all, 2, InItem(a, at));
    Next(InItem(a, at), all, 3, InItem(a, at));
  }

  lemma ItemCloses(all: seq<Located>, k: nat, text: string, at: Span)
    requires k < |all| && all[k].event == End(ItemEnd)
    ensures Fold(InItem(text, at), all[k..]) == Then(Success(Folded(IDLE, [SourceBlock("", ListItem, Trim(text), at)])), all[k + 1..])
  {
    assert all[k..][1..] == all[k + 1..];
  }

  lemma UpToInnerItem(all: seq<Located>, a: string, b: string, at: Span)
    requires |all| > 5 && all[0] == Located(Start(ItemTag), at) && all[1].event == Words(a) && all[2].event == Start(ListTag(false))
    requires all[3].event == Start(ItemTag) && all[4].event == Words(b) && all[5].event == End(ItemEnd)
    ensures Fold(IDLE, all) == Then(Success(Folded(IDLE, [SourceBlock("", ListItem, Trim(a + b), at)])), all[6..])
  {
    ItemOpens(all, a, at);
    Next(InItem(a, at), all, 4, InItem(a + b, at));
    ItemCloses(all, 5, a + b, at);
  }

  lemma AfterLooseItem(all: seq<Located>, c: string, at: Span)
    requires |all| == 11 && all[6].event == End(ListEnd(false)) && all[7] == Located(Start(ParagraphTag), at)
    requires all[8].event == Words(c) && all[9].event == End(ParagraphEnd) && all[10].event == End(ItemEnd)
    ensures Fold(IDLE, all[6..]) == Success(Folded(IDLE, [SourceBlock("", Paragraph, Trim(c), at)]))
  {
    Next(IDLE, all, 6, IDLE);
    Next(IDLE, all, 7, InParagraph("", at));
    assert "" + c == c;
    Next(InParagraph("", at), all, 8, InParagraph(c, at));
    ParagraphCloses(all, c, at);
  }

  function InParagraph(text: string, at: Span): FoldState {
    IDLE.(open := Some(OpenBlock(Paragraph, text, at, ParagraphEnd)))
  }

  lemma ParagraphCloses(all: seq<Located>, c: string, at: Span)
    requires |all| == 11 && all[9].event == End(ParagraphEnd) && all[10].event == End(ItemEnd)
    ensures Fold(InParagraph(c, at), all[9..]) == Success(Folded(IDLE, [SourceBlock("", Paragraph, Trim(c), at)]))
  {
    Next(IDLE, all, 10, IDLE);
    var block := SourceBlock("", Paragraph, Trim(c), at);
    assert all[11..] == [] && all[9..][1..] == all[10..] && [block] + [] == [block];
  }

  /** An item that goes on with bare words after its inner list, which ends with a heading. */
  function TightItem(a: string, b: string, c: string, at: Span): seq<Node> {
    [Plain(a, at), Wrapped(ListTag(false), at, [Wrapped(ItemTag, at, [Wrapped(HeadingTag(1), at, [Plain(b, at)])])]), Plain(c, at)]
  }

  function TightEvents(a: string, b: string, c: string, at: Span): seq<Located> {
    [Located(Start(ItemTag), at), Located(Words(a), at), Located(Start(ListTag(false)), at), Located(Start(ItemTag), at),
     Located(Start(HeadingTag(1)), at), Located(Words(b), at), Located(End(HeadingEnd(1)), at), Located(End(ItemEnd), at),
     Located(End(ListEnd(false)), at), Located(Words(c), at), Located(End(ItemEnd), at)]
  }

  lemma EventsOfTightItem(a: string, b: string, c: string, at: Span)
    ensures Around(ItemTag, at, Events(TightItem(a, b, c, at))) == TightEvents(a, b, c, at)
  {
    var nodes := TightItem(a, b, c, at);
    ThreeEvents(nodes[0], nodes[1], nodes[2]);
    OneNode(Plain(b, at), "");
    OneNode(nodes[1].inside[0].inside[0], "");
    OneNode(nodes[1].inside[0], "");
  }

  /** The words after the inner list are in no block at all, and nothing is refused. */
  lemma TightItemLosesWords(a: string, b: string, c: string, at: Span)
    ensures Fold(IDLE, Around(ItemTag, at, Events(TightItem(a, b, c, at)))) ==
              Success(Folded(IDLE, [SourceBlock("", ListItem, Trim(a + b), at)]))
  {
    EventsOfTightItem(a, b, c, at);
    UpToTightItem(TightEvents(a, b, c, at), a, b, at);
    AfterTightItem(TightEvents(a, b, c, at), c);
    var first := SourceBlock("", ListItem, Trim(a + b), at);
    assert [first] + [] == [first];
  }

  lemma UpToTightItem(all: seq<Located>, a: string, b: string, at: Span)
    requires |all| > 7 && all[0] == Located(Start(ItemTag), at) && all[1].event == Words(a) && all[2].event == Start(ListTag(false))
    requires all[3].event == Start(ItemTag) && all[4].event == Start(HeadingTag(1)) && all[5].event == Words(b)
    requires all[6].event == End(HeadingEnd(1)) && all[7].event == End(ItemEnd)
    ensures Fold(IDLE, all) == Then(Success(Folded(IDLE, [SourceBlock("", ListItem, Trim(a + b), at)])), all[8..])
  {
    ItemOpens(all, a, at);
    Next(InItem(a, at), all, 4, InItem(a, at));
    Next(InItem(a, at), all, 5, InItem(a + b, at));
    Next(InItem(a + b, at), all, 6, InItem(a + b, at));
    ItemCloses(all, 7, a + b, at);
  }

  lemma AfterTightItem(all: seq<Located>, c: string)
    requires |all| == 11 && all[8].event == End(ListEnd(false)) && all[9].event == Words(c) && all[10].event == End(ItemEnd)
    ensures Fold(IDLE, all[8..]) == Success(Folded(IDLE, []))
  {
    Next(IDLE, all, 8, IDLE);
    Next(IDLE, all, 9, IDLE);
    Next(IDLE, all, 10, IDLE);
    assert all[11..] == [];
  }
}
