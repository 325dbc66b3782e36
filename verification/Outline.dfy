/**
 What a document means apart from the fold: a tree of elements, the blocks it holds, and the
 first structure that refuses it. The fold of the tree's events is exactly that meaning.
 */
module Outline {
  import opened Markdown
  import opened Numbering
  import opened Text
  import opened Wrappers

  /** What may stand inside a block or a table cell. */
  datatype Node =
    | Plain(text: string, at: Span)
    | CodeSpan(text: string, at: Span)
    | Break(hard: bool, at: Span)
    | Wrapped(tag: Tag, at: Span, inside: seq<Node>)
    | Anchor(destination: string, at: Span, inside: seq<Node>)
    | Unknown(structure: Structure, at: Span)

  datatype Cell = Cell(at: Span, inside: seq<Node>)

  datatype Row = Row(at: Span, cells: seq<Cell>)

  /** What stands at top level. */
  datatype Element =
    | Block(tag: Tag, at: Span, inside: seq<Node>)
    | Grid(at: Span, head: Row, rows: seq<Row>)
    | Listed(ordered: bool, at: Span, items: seq<Element>)
    | Stray(structure: Structure, at: Span)

  predicate IsBlock(tag: Tag) {
    tag.HeadingTag? || tag.ParagraphTag? || tag.ItemTag? || tag.QuoteTag? || tag.FencedTag? || tag.IndentedTag?
  }

  predicate IsTransparent(tag: Tag) {
    tag.ListTag? || tag.EmphasisTag? || tag.StrongTag?
  }

  // ----- the events of a tree -----

  function Around(tag: Tag, at: Span, inside: seq<Located>): seq<Located> {
    [Located(Start(tag), at)] + inside + [Located(End(EndOf(tag)), at)]
  }

  function NodeEvents(node: Node): seq<Located> {
    match node
    case Plain(text, at) => [Located(Words(text), at)]
    case CodeSpan(text, at) => [Located(Event.Code(text), at)]
    case Break(hard, at) => [Located(if hard then HardBreak else SoftBreak, at)]
    case Wrapped(tag, at, inside) => Around(tag, at, Events(inside))
    case Anchor(destination, at, inside) => Around(LinkTag(destination), at, Events(inside))
    case Unknown(structure, at) => [Located(Event.Foreign(structure), at)]
  }

  function Events(nodes: seq<Node>): seq<Located> {
    if nodes == [] then [] else NodeEvents(nodes[0]) + Events(nodes[1..])
  }

  function CellEvents(cells: seq<Cell>): seq<Located> {
    if cells == [] then [] else Around(CellTag, cells[0].at, Events(cells[0].inside)) + CellEvents(cells[1..])
  }

  function RowEvents(rows: seq<Row>): seq<Located> {
    if rows == [] then [] else Around(RowTag, rows[0].at, CellEvents(rows[0].cells)) + RowEvents(rows[1..])
  }

  function GridEvents(at: Span, head: Row, rows: seq<Row>): seq<Located> {
    Around(TableTag, at, Around(HeadTag, head.at, CellEvents(head.cells)) + RowEvents(rows))
  }

  function ElementEvents(element: Element): seq<Located> {
    match element
    case Block(tag, at, inside) => Around(tag, at, Events(inside))
    case Grid(at, head, rows) => GridEvents(at, head, rows)
    case Listed(ordered, at, items) => Around(ListTag(ordered), at, DocumentEvents(items))
    case Stray(structure, at) => [Located(Event.Foreign(structure), at)]
  }

  function DocumentEvents(document: seq<Element>): seq<Located> {
    if document == [] then [] else ElementEvents(document[0]) + DocumentEvents(document[1..])
  }

  // ----- what the nodes say -----

  function NodeSays(node: Node, gap: string): string {
    match node
    case Plain(text, _) => text
    case CodeSpan(text, _) => text
    case Break(_, _) => gap
    case Wrapped(_, _, inside) => Says(inside, gap)
    case Anchor(_, _, inside) => Says(inside, gap)
    case Unknown(_, _) => ""
  }

  /** The words of the nodes in order, with `gap` for each break. */
  function Says(nodes: seq<Node>, gap: string): string {
    if nodes == [] then "" else NodeSays(nodes[0], gap) + Says(nodes[1..], gap)
  }

  /** What a block keeps: a break is a space. */
  function Prose(nodes: seq<Node>): string {
    Says(nodes, " ")
  }

  /** What a link keeps of its label: a break is nothing. */
  function LabelOf(nodes: seq<Node>): string {
    Says(nodes, "")
  }

  function NodeContents(node: Node): seq<Nest> {
    match node
    case CodeSpan(text, at) => [Nest(SourceBlock("", InlineCode, text, at), [])]
    case Wrapped(tag, _, inside) => if tag.ForeignTag? then [] else Contents(inside)
    case Anchor(destination, at, inside) => [Nest(SourceBlock("", Link(destination), LabelOf(inside), at), Contents(inside))]
    case _ => []
  }

  /** The blocks the nodes hold: code spans and links, and nothing for an inner container. */
  function Contents(nodes: seq<Node>): seq<Nest> {
    if nodes == [] then [] else NodeContents(nodes[0]) + Contents(nodes[1..])
  }

  function Or(first: Option<CompileError>, second: Option<CompileError>): Option<CompileError> {
    if first.Some? then first else second
  }

  function NodeFault(node: Node): Option<CompileError> {
    match node
    case Wrapped(tag, at, inside) => if tag.ForeignTag? then Some(UnsupportedStructure(tag.structure, at.start)) else Fault(inside)
    case Anchor(_, _, inside) => Fault(inside)
    case Unknown(structure, at) => Some(UnsupportedStructure(structure, at.start))
    case _ => None
  }

  /** The first structure among the nodes that no block kind covers, by its tag or by its event. */
  function Fault(nodes: seq<Node>): Option<CompileError> {
    if nodes == [] then None else Or(NodeFault(nodes[0]), Fault(nodes[1..]))
  }

  /** One node alone. */
  lemma OneNode(node: Node, gap: string)
    ensures Events([node]) == NodeEvents(node) && Says([node], gap) == NodeSays(node, gap)
    ensures Contents([node]) == NodeContents(node) && Fault([node]) == NodeFault(node)
  {
    assert [node][1..] == [];
  }

  ghost predicate NodeInner(node: Node, closesOn: TagEnd, inLink: bool, inCell: bool) {
    match node
    case Break(_, _) => !inCell
    case Wrapped(tag, _, inside) =>
      tag.ForeignTag? ||
      ((IsBlock(tag) || IsTransparent(tag)) && EndOf(tag) != closesOn && Inner(inside, closesOn, inLink, inCell))
    case Anchor(_, _, inside) => !inLink && Inner(inside, closesOn, true, inCell)
    case _ => true
  }

  /**
   What the fold's meaning rests on: nothing inside waits for the end tag the outermost block
   waits for, no link holds a link, and no break stands in a cell. A foreign tag may hold anything.
   */
  ghost predicate Inner(nodes: seq<Node>, closesOn: TagEnd, inLink: bool, inCell: bool) {
    nodes != [] ==> NodeInner(nodes[0], closesOn, inLink, inCell) && Inner(nodes[1..], closesOn, inLink, inCell)
  }

  // ----- nodes in an open block -----

  /** The state once `prose` has reached the open block or cell, and `words` the open link. */
  function Grown(s: FoldState, prose: string, words: string): FoldState {
    WithLabel(WithText(s, prose), words)
  }

  /** What the fold must give: the fault if there is one, and otherwise `s` and the blocks. */
  function Reading(fault: Option<CompileError>, s: FoldState, blocks: seq<SourceBlock>): FoldResult {
    if fault.Some? then Failure(fault.value) else Success(Folded(s, blocks))
  }

  lemma {:induction false} PostOrderAppend(a: seq<Nest>, b: seq<Nest>)
    ensures PostOrder(a + b) == PostOrder(a) + PostOrder(b)
  {
    if a == [] {
      assert a + b == b;
    } else {
      assert (a + b)[1..] == a[1..] + b;
      PostOrderAppend(a[1..], b);
    }
  }

  /** Two readings one after the other. */
  lemma ReadingThen(s: FoldState, a: seq<Located>, b: seq<Located>, faultA: Option<CompileError>, faultB: Option<CompileError>,
                    mid: FoldState, end: FoldState, blocksA: seq<SourceBlock>, blocksB: seq<SourceBlock>)
    requires Fold(s, a) == Reading(faultA, mid, blocksA)
    requires faultA.None? ==> Fold(mid, b) == Reading(faultB, end, blocksB)
    ensures Fold(s, a + b) == Reading(Or(faultA, faultB), end, blocksA + blocksB)
  {
    FoldAppend(s, a, b);
  }

  /** Events between two tags that emit nothing at the start. */
  lemma AroundReads(s: FoldState, tag: Tag, at: Span, inside: seq<Located>, fault: Option<CompileError>,
                    begun: FoldState, mid: FoldState, end: FoldState, blocks: seq<SourceBlock>,
                    last: Option<CompileError>, pushed: seq<SourceBlock>)
    requires Begin(s, tag, at) == Done(begun)
    requires Fold(begun, inside) == Reading(fault, mid, blocks)
    requires fault.None? ==> Finish(mid, EndOf(tag)) == Reading(last, end, pushed)
    ensures Fold(s, Around(tag, at, inside)) == Reading(Or(fault, last), end, blocks + pushed)
  {
    var first, final := Located(Start(tag), at), Located(End(EndOf(tag)), at);
    FoldOne(s, first);
    FoldOne(mid, final);
    ReadingThen(s, [first], inside, None, fault, begun, mid, [], blocks);
    assert [] + blocks == blocks;
    ReadingThen(s, [first] + inside, [final], fault, last, mid, end, blocks, pushed);
  }

  lemma AroundQuiet(s: FoldState, tag: Tag, at: Span, inside: seq<Located>, fault: Option<CompileError>,
                    begun: FoldState, mid: FoldState, end: FoldState, blocks: seq<SourceBlock>, last: Option<CompileError>)
    requires Begin(s, tag, at) == Done(begun)
    requires Fold(begun, inside) == Reading(fault, mid, blocks)
    requires fault.None? ==> Finish(mid, EndOf(tag)) == Reading(last, end, [])
    ensures Fold(s, Around(tag, at, inside)) == Reading(Or(fault, last), end, blocks)
  {
    AroundReads(s, tag, at, inside, fault, begun, mid, end, blocks, last, []);
    assert blocks + [] == blocks;
  }

  lemma GrownTwice(s: FoldState, prose: string, words: string, prose': string, words': string)
    ensures Grown(Grown(s, prose, words), prose', words') == Grown(s, prose + prose', words + words')
  {
    if s.cell.Some? {
      assert s.cell.value + prose + prose' == s.cell.value + (prose + prose');
    }
    if s.open.Some? {
      assert s.open.value.text + prose + prose' == s.open.value.text + (prose + prose');
    }
    if s.link.Some? {
      assert s.link.value.text + words + words' == s.link.value.text + (words + words');
    }
  }

  lemma GrownNothing(s: FoldState)
    ensures Grown(s, "", "") == s
  {
    if s.cell.Some? { assert s.cell.value + "" == s.cell.value; }
    if s.open.Some? { assert s.open.value.text + "" == s.open.value.text; }
    if s.link.Some? { assert s.link.value.text + "" == s.link.value.text; }
  }

  /** Nothing inside a foreign tag is read: its start is refused. */
  lemma ForeignRefuses(s: FoldState, structure: Structure, at: Span, inside: seq<Located>)
    ensures Fold(s, Around(ForeignTag(structure), at, inside)) == Failure(UnsupportedStructure(structure, at.start))
  {
    var first, last := Located(Start(ForeignTag(structure)), at), Located(End(ForeignEnd(structure)), at);
    FoldOne(s, first);
    FoldAppend(s, [first], inside);
    FoldAppend(s, [first] + inside, [last]);
  }

  ghost predicate NodesMean(nodes: seq<Node>, s: FoldState) {
    Fold(s, Events(nodes)) == Reading(Fault(nodes), Grown(s, Prose(nodes), LabelOf(nodes)), PostOrder(Contents(nodes)))
  }

  ghost predicate NodeMeans(node: Node, s: FoldState) {
    Fold(s, NodeEvents(node)) ==
    Reading(NodeFault(node), Grown(s, NodeSays(node, " "), NodeSays(node, "")), PostOrder(NodeContents(node)))
  }

  /** Inside an open block the nodes only add their words, and emit their code spans and links. */
  lemma {:induction false} NodesRead(nodes: seq<Node>, s: FoldState)
    requires s.open.Some? && Inner(nodes, s.open.value.closesOn, s.link.Some?, s.cell.Some?)
    ensures NodesMean(nodes, s)
  {
    if nodes == [] {
      GrownNothing(s);
    } else {
      var node, rest := nodes[0], nodes[1..];
      NodeReads(node, s);
      var mid := Grown(s, NodeSays(node, " "), NodeSays(node, ""));
      NodesRead(rest, mid);
      ReadingThen(s, NodeEvents(node), Events(rest), NodeFault(node), Fault(rest),
                  mid, Grown(mid, Prose(rest), LabelOf(rest)), PostOrder(NodeContents(node)), PostOrder(Contents(rest)));
      GrownTwice(s, NodeSays(node, " "), NodeSays(node, ""), Prose(rest), LabelOf(rest));
      PostOrderAppend(NodeContents(node), Contents(rest));
    }
  }

  lemma {:induction false} NodeReads(node: Node, s: FoldState)
    requires s.open.Some? && NodeInner(node, s.open.value.closesOn, s.link.Some?, s.cell.Some?)
    ensures NodeMeans(node, s)
  {
    match node {
      case Wrapped(tag, at, inside) =>
        if tag.ForeignTag? {
          ForeignRefuses(s, tag.structure, at, Events(inside));
        } else {
          NodesRead(inside, s);
          WrappedReads(node, s);
        }
      case Anchor(destination, at, inside) =>
        NodesRead(inside, s.(link := Some(OpenLink(destination, "", at))));
        AnchorReads(node, s);
      case _ => LeafReads(node, s);
    }
  }

  lemma LeafReads(node: Node, s: FoldState)
    requires s.open.Some? && !node.Wrapped? && !node.Anchor? && (node.Break? ==> s.cell.None?)
    ensures NodeMeans(node, s)
  {
    FoldOne(s, NodeEvents(node)[0]);
    if node.CodeSpan? {
      var code := NodeContents(node)[0];
      OneNest(code);
      assert PostOrder(code.inside) + [code.block] == [code.block];
    } else if node.Break? && s.link.Some? {
      assert s.link.value.text + "" == s.link.value.text;
    }
  }

  lemma OneNest(nest: Nest)
    ensures PostOrder([nest]) == PostOrder(nest.inside) + [nest.block]
  {
    assert [nest][1..] == [];
  }

  /** A tag the open block does not wait for passes through it. */
  lemma PassesThrough(s: FoldState, tag: Tag, at: Span)
    requires s.open.Some? && (IsBlock(tag) || IsTransparent(tag)) && EndOf(tag) != s.open.value.closesOn
    ensures Begin(s, tag, at) == Done(s) && Finish(s, EndOf(tag)) == Done(s)
  {}

  lemma WrappedReads(node: Node, s: FoldState)
    requires s.open.Some? && node.Wrapped? && (IsBlock(node.tag) || IsTransparent(node.tag)) && EndOf(node.tag) != s.open.value.closesOn
    requires NodesMean(node.inside, s)
    ensures NodeMeans(node, s)
  {
    var mid := Grown(s, Prose(node.inside), LabelOf(node.inside));
    PassesThrough(s, node.tag, node.at);
    PassesThrough(mid, node.tag, node.at);
    AroundQuiet(s, node.tag, node.at, Events(node.inside), Fault(node.inside), s, mid, mid, PostOrder(Contents(node.inside)), None);
  }

  lemma AnchorReads(node: Node, s: FoldState)
    requires s.open.Some? && node.Anchor? && s.link.None?
    requires NodesMean(node.inside, s.(link := Some(OpenLink(node.destination, "", node.at))))
    ensures NodeMeans(node, s)
  {
    var begun := s.(link := Some(OpenLink(node.destination, "", node.at)));
    var mid := Grown(begun, Prose(node.inside), LabelOf(node.inside));
    var end := Grown(s, Prose(node.inside), LabelOf(node.inside));
    LinkGrown(s, node.destination, node.at, Prose(node.inside), LabelOf(node.inside));
    AroundReads(s, LinkTag(node.destination), node.at, Events(node.inside), Fault(node.inside), begun, mid, end,
                PostOrder(Contents(node.inside)), None, [SourceBlock("", Link(node.destination), LabelOf(node.inside), node.at)]);
    OneNest(NodeContents(node)[0]);
  }

  lemma LinkGrown(s: FoldState, destination: string, at: Span, prose: string, words: string)
    requires s.link.None?
    ensures var mid := Grown(s.(link := Some(OpenLink(destination, "", at))), prose, words);
            && mid.link == Some(OpenLink(destination, words, at))
            && mid.(link := None) == Grown(s, prose, words)
  {
    assert "" + words == words;
  }

  // ----- tables -----

  function Texts(cells: seq<Cell>): (texts: seq<string>)
    ensures |texts| == |cells| && forall i :: 0 <= i < |cells| ==> texts[i] == Prose(cells[i].inside)
  {
    if cells == [] then [] else [Prose(cells[0].inside)] + Texts(cells[1..])
  }

  function CellsFault(cells: seq<Cell>): Option<CompileError> {
    if cells == [] then None else Or(Fault(cells[0].inside), CellsFault(cells[1..]))
  }

  function CellsContents(cells: seq<Cell>): seq<Nest> {
    if cells == [] then [] else Contents(cells[0].inside) + CellsContents(cells[1..])
  }

  ghost predicate InnerCells(cells: seq<Cell>) {
    forall i :: 0 <= i < |cells| ==> Inner(cells[i].inside, TableEnd, false, true)
  }

  ghost predicate InnerRows(rows: seq<Row>) {
    forall i :: 0 <= i < |rows| ==> InnerCells(rows[i].cells)
  }

  function RowsFault(offset: nat, header: seq<string>, rows: seq<Row>): Option<CompileError> {
    if rows == [] then None
    else Or(Or(CellsFault(rows[0].cells), RowFault(offset, header, Texts(rows[0].cells))), RowsFault(offset, header, rows[1..]))
  }

  function RowsContents(rows: seq<Row>): seq<Nest> {
    if rows == [] then [] else CellsContents(rows[0].cells) + RowsContents(rows[1..])
  }

  function Sentences(header: seq<string>, rows: seq<Row>): (sentences: seq<string>)
    ensures |sentences| == |rows| && forall i :: 0 <= i < |rows| ==> sentences[i] == Sentence(header, Texts(rows[i].cells))
  {
    if rows == [] then [] else [Sentence(header, Texts(rows[0].cells))] + Sentences(header, rows[1..])
  }

  /** A table read aloud: its rows in order, one sentence each. */
  function GridText(head: Row, rows: seq<Row>): string {
    JoinWith(Sentences(Texts(head.cells), rows), " ")
  }

  function GridFault(at: Span, head: Row, rows: seq<Row>): Option<CompileError> {
    Or(Or(CellsFault(head.cells), HeaderFault(at.start, Texts(head.cells))), RowsFault(at.start, Texts(head.cells), rows))
  }

  function GridContents(head: Row, rows: seq<Row>): seq<Nest> {
    CellsContents(head.cells) + RowsContents(rows)
  }

  function GridBlock(at: Span, head: Row, rows: seq<Row>): SourceBlock {
    SourceBlock("", Table, Trim(GridText(head, rows)), at)
  }

  /** The state while a table is open and no cell or link is. */
  ghost predicate BetweenCells(s: FoldState) {
    s.open.Some? && s.open.value.closesOn == TableEnd && s.cell.None? && s.link.None?
  }

  lemma {:induction false} CellsRead(cells: seq<Cell>, s: FoldState)
    requires BetweenCells(s) && InnerCells(cells)
    ensures Fold(s, CellEvents(cells)) == Reading(CellsFault(cells), s.(cells := s.cells + Texts(cells)), PostOrder(CellsContents(cells)))
  {
    if cells == [] {
      assert s.cells + Texts(cells) == s.cells;
    } else {
      var cell := cells[0];
      var mid, end := s.(cells := s.cells + [Prose(cell.inside)]), s.(cells := s.cells + Texts(cells));
      CellReads(cell, s);
      CellsRead(cells[1..], mid);
      Associate(s.cells, [Prose(cell.inside)], Texts(cells[1..]));
      PostOrderAppend(Contents(cell.inside), CellsContents(cells[1..]));
      ReadingThen(s, Around(CellTag, cell.at, Events(cell.inside)), CellEvents(cells[1..]), Fault(cell.inside), CellsFault(cells[1..]),
                  mid, end, PostOrder(Contents(cell.inside)), PostOrder(CellsContents(cells[1..])));
    }
  }

  lemma CellsFromEmpty(cells: seq<Cell>, s: FoldState)
    requires BetweenCells(s) && InnerCells(cells)
    ensures Fold(s.(cells := []), CellEvents(cells)) == Reading(CellsFault(cells), s.(cells := Texts(cells)), PostOrder(CellsContents(cells)))
  {
    CellsRead(cells, s.(cells := []));
    assert [] + Texts(cells) == Texts(cells);
  }

  lemma CellReads(cell: Cell, s: FoldState)
    requires BetweenCells(s) && Inner(cell.inside, TableEnd, false, true)
    ensures Fold(s, Around(CellTag, cell.at, Events(cell.inside))) ==
              Reading(Fault(cell.inside), s.(cells := s.cells + [Prose(cell.inside)]), PostOrder(Contents(cell.inside)))
  {
    var begun := s.(cell := Some(""));
    NodesRead(cell.inside, begun);
    var mid := Grown(begun, Prose(cell.inside), LabelOf(cell.inside));
    assert "" + Prose(cell.inside) == Prose(cell.inside);
    AroundQuiet(s, CellTag, cell.at, Events(cell.inside), Fault(cell.inside), begun, mid, s.(cells := s.cells + [Prose(cell.inside)]),
                PostOrder(Contents(cell.inside)), None);
  }

  function AfterRows(s: FoldState, rows: seq<Row>): FoldState
    decreases rows
  {
    if rows == [] then s else AfterRows(WithRow(s.(cells := Texts(rows[0].cells))), rows[1..])
  }

  lemma {:induction false} RowsRead(rows: seq<Row>, s: FoldState)
    requires BetweenCells(s) && InnerRows(rows)
    ensures Fold(s, RowEvents(rows)) ==
              Reading(RowsFault(s.open.value.span.start, s.header, rows), AfterRows(s, rows), PostOrder(RowsContents(rows)))
  {
    if rows != [] {
      var offset, row := s.open.value.span.start, rows[0];
      var mid := WithRow(s.(cells := Texts(row.cells)));
      RowReads(row, s);
      RowsRead(rows[1..], mid);
      var first := Or(CellsFault(row.cells), RowFault(offset, s.header, Texts(row.cells)));
      ReadingThen(s, Around(RowTag, row.at, CellEvents(row.cells)), RowEvents(rows[1..]), first, RowsFault(offset, s.header, rows[1..]),
                  mid, AfterRows(s, rows), PostOrder(CellsContents(row.cells)), PostOrder(RowsContents(rows[1..])));
      PostOrderAppend(CellsContents(row.cells), RowsContents(rows[1..]));
    }
  }

  lemma RowFinishes(s: FoldState)
    requires s.open.Some?
    ensures Finish(s, RowEnd) == Reading(RowFault(s.open.value.span.start, s.header, s.cells), WithRow(s), [])
  {}

  lemma HeadFinishes(s: FoldState)
    requires s.open.Some?
    ensures Finish(s, HeadEnd) == Reading(HeaderFault(s.open.value.span.start, s.cells), s.(header := s.cells, cells := []), [])
  {}

  lemma RowAround(s: FoldState, at: Span, inside: seq<Located>, fault: Option<CompileError>, texts: seq<string>, blocks: seq<SourceBlock>)
    requires s.open.Some? && Fold(s.(cells := []), inside) == Reading(fault, s.(cells := texts), blocks)
    ensures Fold(s, Around(RowTag, at, inside)) ==
              Reading(Or(fault, RowFault(s.open.value.span.start, s.header, texts)), WithRow(s.(cells := texts)), blocks)
  {
    var mid := s.(cells := texts);
    RowFinishes(mid);
    AroundQuiet(s, RowTag, at, inside, fault, s.(cells := []), mid, WithRow(mid), blocks,
                RowFault(s.open.value.span.start, s.header, texts));
  }

  lemma RowReads(row: Row, s: FoldState)
    requires BetweenCells(s) && InnerCells(row.cells)
    ensures Fold(s, Around(RowTag, row.at, CellEvents(row.cells))) ==
              Reading(Or(CellsFault(row.cells), RowFault(s.open.value.span.start, s.header, Texts(row.cells))),
                      WithRow(s.(cells := Texts(row.cells))), PostOrder(CellsContents(row.cells)))
  {
    CellsFromEmpty(row.cells, s);
    RowAround(s, row.at, CellEvents(row.cells), CellsFault(row.cells), Texts(row.cells), PostOrder(CellsContents(row.cells)));
  }

  lemma HeadReads(head: Row, s: FoldState)
    requires BetweenCells(s) && InnerCells(head.cells)
    ensures Fold(s, Around(HeadTag, head.at, CellEvents(head.cells))) ==
              Reading(Or(CellsFault(head.cells), HeaderFault(s.open.value.span.start, Texts(head.cells))),
                      s.(header := Texts(head.cells), cells := []), PostOrder(CellsContents(head.cells)))
  {
    CellsFromEmpty(head.cells, s);
    HeadAround(s, head.at, CellEvents(head.cells), CellsFault(head.cells), Texts(head.cells), PostOrder(CellsContents(head.cells)));
  }

  lemma HeadAround(s: FoldState, at: Span, inside: seq<Located>, fault: Option<CompileError>, texts: seq<string>, blocks: seq<SourceBlock>)
    requires s.open.Some? && Fold(s.(cells := []), inside) == Reading(fault, s.(cells := texts), blocks)
    ensures Fold(s, Around(HeadTag, at, inside)) ==
              Reading(Or(fault, HeaderFault(s.open.value.span.start, texts)), s.(header := texts, cells := []), blocks)
  {
    var mid := s.(cells := texts);
    HeadFinishes(mid);
    AroundQuiet(s, HeadTag, at, inside, fault, s.(cells := []), mid, s.(header := texts, cells := []), blocks,
                HeaderFault(s.open.value.span.start, texts));
  }

  /** Text already told, followed by more sentences. */
  function Told(text: string, sentences: seq<string>): string {
    if sentences == [] then text else WithSentence(text, JoinWith(sentences, " "))
  }

  /** The rows' sentences reach the open table in order, one space apart. */
  lemma {:induction false} RowsTell(s: FoldState, rows: seq<Row>)
    requires BetweenCells(s)
    ensures BetweenCells(AfterRows(s, rows))
    ensures AfterRows(s, rows).open.value == s.open.value.(text := Told(s.open.value.text, Sentences(s.header, rows)))
    decreases rows
  {
    if rows != [] {
      var first := Sentence(s.header, Texts(rows[0].cells));
      RowsTell(WithRow(s.(cells := Texts(rows[0].cells))), rows[1..]);
      assert |first| > 0;
      TellNext(s.open.value.text, first, Sentences(s.header, rows[1..]));
      assert Sentences(s.header, rows) == [first] + Sentences(s.header, rows[1..]);
    }
  }

  lemma TellNext(text: string, first: string, rest: seq<string>)
    requires first != ""
    ensures Told(WithSentence(text, first), rest) == Told(text, [first] + rest)
  {
    if rest != [] {
      assert JoinWith([first] + rest, " ") == first + " " + JoinWith(rest, " ") by {
        assert ([first] + rest)[1..] == rest;
      }
      var all := JoinWith(rest, " ");
      assert first + " " + all == first + (" " + all);
      assert text + " " + (first + " " + all) == text + " " + first + " " + all;
    }
  }

  lemma GridBody(at: Span, head: Row, rows: seq<Row>, s: FoldState)
    requires BetweenCells(s) && s.open.value.text == "" && s.open.value.span == at
    requires InnerCells(head.cells) && InnerRows(rows)
    ensures Fold(s, Around(HeadTag, head.at, CellEvents(head.cells)) + RowEvents(rows)) ==
              Reading(GridFault(at, head, rows), AfterRows(s.(header := Texts(head.cells), cells := []), rows),
                      PostOrder(GridContents(head, rows)))
  {
    var named := s.(header := Texts(head.cells), cells := []);
    HeadReads(head, s);
    RowsRead(rows, named);
    PostOrderAppend(CellsContents(head.cells), RowsContents(rows));
    ReadingThen(s, Around(HeadTag, head.at, CellEvents(head.cells)), RowEvents(rows),
                Or(CellsFault(head.cells), HeaderFault(at.start, Texts(head.cells))), RowsFault(at.start, Texts(head.cells), rows),
                named, AfterRows(named, rows), PostOrder(CellsContents(head.cells)), PostOrder(RowsContents(rows)));
  }

  lemma ToldFromNothing(sentences: seq<string>)
    ensures Told("", sentences) == JoinWith(sentences, " ")
  {
    assert "" + JoinWith(sentences, " ") == JoinWith(sentences, " ");
  }

  lemma TableCloses(s: FoldState, text: string, at: Span)
    requires s.open == Some(OpenBlock(Table, text, at, TableEnd))
    ensures Finish(s, TableEnd) == Success(Folded(s.(open := None), [SourceBlock("", Table, Trim(text), at)]))
  {}

  /**
   A table, its head, rows and cells wherever they stand, is refused at its first fault in
   row-major order; otherwise it is one block that says its rows.
   */
  lemma GridReads(at: Span, head: Row, rows: seq<Row>, s: FoldState) returns (end: FoldState)
    requires Resting(s) && InnerCells(head.cells) && InnerRows(rows)
    ensures Resting(end)
    ensures Fold(s, GridEvents(at, head, rows)) ==
              Reading(GridFault(at, head, rows), end, PostOrder(GridContents(head, rows)) + [GridBlock(at, head, rows)])
  {
    var begun := s.(header := [], open := Some(OpenBlock(Table, "", at, TableEnd)));
    var named := begun.(header := Texts(head.cells), cells := []);
    var mid := AfterRows(named, rows);
    end := mid.(open := None);
    GridBody(at, head, rows, begun);
    RowsTell(named, rows);
    ToldFromNothing(Sentences(Texts(head.cells), rows));
    TableCloses(mid, GridText(head, rows), at);
    AroundReads(s, TableTag, at, Around(HeadTag, head.at, CellEvents(head.cells)) + RowEvents(rows), GridFault(at, head, rows),
                begun, mid, end, PostOrder(GridContents(head, rows)), None, [GridBlock(at, head, rows)]);
  }

  ghost predicate KnownRows(rows: seq<Row>) {
    forall r :: 0 <= r < |rows| ==> CellsFault(rows[r].cells).None?
  }

  /** A table of known structures is refused exactly when a column has no name or a named cell no value. */
  lemma GridRefused(at: Span, head: Row, rows: seq<Row>)
    requires CellsFault(head.cells).None? && KnownRows(rows)
    ensures GridFault(at, head, rows).None? <==>
              && (forall i :: 0 <= i < |head.cells| ==> !Blank(Prose(head.cells[i].inside)))
              && (forall r :: 0 <= r < |rows| ==> RowHasValues(|head.cells|, rows[r]))
  {
    RowsRefused(at.start, Texts(head.cells), rows);
  }

  /** The first blank cell of a row among its first `columns`. */
  ghost predicate FirstBlankAt(cells: seq<Cell>, columns: nat, i: int) {
    && 0 <= i < columns && i < |cells| && Blank(Prose(cells[i].inside))
    && forall j :: 0 <= j < i ==> !Blank(Prose(cells[j].inside))
  }

  /** The first cell without a value, row by row and in each row column by column. */
  ghost predicate FirstGapAt(columns: nat, rows: seq<Row>, r: int, i: int) {
    && 0 <= r < |rows| && FirstBlankAt(rows[r].cells, columns, i)
    && forall k :: 0 <= k < r ==> RowHasValues(columns, rows[k])
  }

  /**
   A refused table of known structures names its first nameless column by its number from one,
   and otherwise the column of its first missing value, in row-major order, at the table's start.
   */
  lemma GridFaultIsFirstGap(at: Span, head: Row, rows: seq<Row>)
    requires CellsFault(head.cells).None? && KnownRows(rows)
    ensures forall i :: FirstBlankAt(head.cells, |head.cells|, i) ==>
              GridFault(at, head, rows) == Some(EmptyTableCell(at.start, "column " + Decimal(i + 1)))
    ensures (forall i :: 0 <= i < |head.cells| ==> !Blank(Prose(head.cells[i].inside))) ==>
              forall r, i :: FirstGapAt(|head.cells|, rows, r, i) ==>
                GridFault(at, head, rows) == Some(EmptyTableCell(at.start, Prose(head.cells[i].inside)))
  {
    var header := Texts(head.cells);
    forall r, i | FirstGapAt(|head.cells|, rows, r, i)
      ensures RowsFault(at.start, header, rows) == Some(EmptyTableCell(at.start, header[i]))
    {
      RowsFaultAt(at.start, header, rows, r, i);
    }
  }

  lemma {:induction false} RowsFaultAt(offset: nat, header: seq<string>, rows: seq<Row>, r: nat, i: nat)
    requires KnownRows(rows) && FirstGapAt(|header|, rows, r, i)
    ensures RowsFault(offset, header, rows) == Some(EmptyTableCell(offset, header[i]))
  {
    if r == 0 {
      RowFaultAt(offset, header, rows[0].cells, i);
    } else {
      assert RowHasValues(|header|, rows[0]);
      RowFaultNone(offset, header, rows[0]);
      assert forall k :: 0 <= k < r - 1 ==> rows[1..][k] == rows[k + 1];
      RowsFaultAt(offset, header, rows[1..], r - 1, i);
    }
  }

  lemma RowFaultAt(offset: nat, header: seq<string>, cells: seq<Cell>, i: nat)
    requires FirstBlankAt(cells, |header|, i)
    ensures RowFault(offset, header, Texts(cells)) == Some(EmptyTableCell(offset, header[i]))
  {
    var paired := Texts(cells)[..Paired(header, Texts(cells))];
    assert forall j :: 0 <= j <= i ==> paired[j] == Prose(cells[j].inside);
    FirstBlankIs(paired, i);
  }

  lemma FirstBlankIs(cells: seq<string>, i: nat)
    requires i < |cells| && Blank(cells[i]) && forall j :: 0 <= j < i ==> !Blank(cells[j])
    ensures FirstBlank(cells) == Some(i)
  {
    var first := FirstBlank(cells);
    assert first.Some?;
    assert Blank(cells[first.value]) && first.value <= i;
    assert !(first.value < i);
  }

  lemma RowFaultNone(offset: nat, header: seq<string>, row: Row)
    ensures RowFault(offset, header, Texts(row.cells)).None? <==> RowHasValues(|header|, row)
  {
    var n := Paired(header, Texts(row.cells));
    assert forall i :: 0 <= i < n ==> Texts(row.cells)[..n][i] == Prose(row.cells[i].inside);
  }

  ghost predicate RowHasValues(columns: nat, row: Row) {
    forall i :: 0 <= i < columns && i < |row.cells| ==> !Blank(Prose(row.cells[i].inside))
  }

  lemma {:induction false} RowsRefused(offset: nat, header: seq<string>, rows: seq<Row>)
    requires KnownRows(rows)
    ensures RowsFault(offset, header, rows).None? <==> forall r :: 0 <= r < |rows| ==> RowHasValues(|header|, rows[r])
  {
    if rows != [] {
      RowsRefused(offset, header, rows[1..]);
      RowFaultNone(offset, header, rows[0]);
      assert forall r :: 1 <= r < |rows| ==> rows[r] == rows[1..][r - 1];
    }
  }

  // ----- documents -----

  /** Nothing is open. */
  ghost predicate Resting(s: FoldState) {
    s.open.None? && s.cell.None? && s.link.None?
  }

  function KindOf(tag: Tag): SourceBlockKind
    requires IsBlock(tag)
  {
    match tag
    case HeadingTag(level) => Heading(level)
    case ParagraphTag => Paragraph
    case ItemTag => ListItem
    case QuoteTag(_) => Quotation
    case FencedTag(info) => CodeKind(info)
    case IndentedTag => CodeKind("")
  }

  ghost predicate ElementReadable(element: Element) {
    match element
    case Block(tag, _, inside) =>
      tag.ForeignTag? || (IsBlock(tag) && tag != QuoteTag(true) && Inner(inside, EndOf(tag), false, false))
    case Grid(_, head, rows) => InnerCells(head.cells) && InnerRows(rows)
    case Listed(_, _, items) => Readable(items)
    case Stray(_, _) => true
  }

  /** Every element is one the fold can read; see `Inner`. */
  ghost predicate Readable(document: seq<Element>) {
    document != [] ==> ElementReadable(document[0]) && Readable(document[1..])
  }

  function ElementForest(element: Element): seq<Nest>
    requires ElementReadable(element)
  {
    match element
    case Block(tag, at, inside) =>
      if tag.ForeignTag? then [] else [Nest(SourceBlock("", KindOf(tag), Trim(Prose(inside)), at), Contents(inside))]
    case Grid(at, head, rows) => [Nest(GridBlock(at, head, rows), GridContents(head, rows))]
    case Listed(_, _, items) => Forest(items)
    case Stray(_, _) => []
  }

  /** One block for every top-level block and table, with the code spans and links it holds. */
  function Forest(document: seq<Element>): seq<Nest>
    requires Readable(document)
  {
    if document == [] then [] else ElementForest(document[0]) + Forest(document[1..])
  }

  function ElementFault(element: Element): Option<CompileError> {
    match element
    case Block(tag, at, inside) => if tag.ForeignTag? then Some(UnsupportedStructure(tag.structure, at.start)) else Fault(inside)
    case Grid(at, head, rows) => GridFault(at, head, rows)
    case Listed(_, _, items) => DocumentFault(items)
    case Stray(structure, at) => Some(UnsupportedStructure(structure, at.start))
  }

  function DocumentFault(document: seq<Element>): Option<CompileError> {
    if document == [] then None else Or(ElementFault(document[0]), DocumentFault(document[1..]))
  }

  lemma BlockReads(tag: Tag, at: Span, inside: seq<Node>, s: FoldState)
    requires Resting(s) && IsBlock(tag) && tag != QuoteTag(true) && Inner(inside, EndOf(tag), false, false)
    ensures Fold(s, Around(tag, at, Events(inside))) ==
              Reading(Fault(inside), s, PostOrder(Contents(inside)) + [SourceBlock("", KindOf(tag), Trim(Prose(inside)), at)])
  {
    var begun := s.(open := Some(OpenBlock(KindOf(tag), "", at, EndOf(tag))));
    NodesRead(inside, begun);
    var mid := Grown(begun, Prose(inside), LabelOf(inside));
    assert "" + Prose(inside) == Prose(inside);
    AroundReads(s, tag, at, Events(inside), Fault(inside), begun, mid, s, PostOrder(Contents(inside)), None,
                [SourceBlock("", KindOf(tag), Trim(Prose(inside)), at)]);
  }

  /**
   The fold of a readable document ends with nothing open and is refused exactly at the
   document's first fault; otherwise it emits one block for every top-level block, table,
   code span and link, with the words that belong to it.
   */
  lemma {:induction false} DocumentReads(document: seq<Element>, s: FoldState) returns (end: FoldState)
    requires Resting(s) && Readable(document)
    ensures Resting(end)
    ensures Fold(s, DocumentEvents(document)) == Reading(DocumentFault(document), end, PostOrder(Forest(document)))
    decreases document
  {
    end := s;
    if document != [] {
      var first, rest := document[0], document[1..];
      var mid := ElementReads(first, s);
      end := DocumentReads(rest, mid);
      PostOrderAppend(ElementForest(first), Forest(rest));
      ReadingThen(s, ElementEvents(first), DocumentEvents(rest), ElementFault(first), DocumentFault(rest),
                  mid, end, PostOrder(ElementForest(first)), PostOrder(Forest(rest)));
    }
  }

  lemma {:induction false} ElementReads(element: Element, s: FoldState) returns (end: FoldState)
    requires Resting(s) && ElementReadable(element)
    ensures Resting(end) && ElementMeans(element, s, end)
    decreases element
  {
    end := s;
    match element {
      case Block(_, _, _) => BlockMeans(element, s);
      case Grid(_, _, _) => end := GridMeans(element, s);
      case Listed(_, _, items) =>
        end := DocumentReads(items, s);
        ListedMeans(element, s, end);
      case Stray(structure, at) => FoldOne(s, Located(Event.Foreign(structure), at));
    }
  }

  lemma ListedMeans(element: Element, s: FoldState, end: FoldState)
    requires element.Listed? && ElementReadable(element)
    requires Fold(s, DocumentEvents(element.items)) == Reading(DocumentFault(element.items), end, PostOrder(Forest(element.items)))
    ensures ElementMeans(element, s, end)
  {
    ListReads(s, element.ordered, element.at, DocumentEvents(element.items), DocumentFault(element.items), end, PostOrder(Forest(element.items)));
  }

  /** A list adds nothing of its own. */
  lemma ListReads(s: FoldState, ordered: bool, at: Span, inside: seq<Located>, fault: Option<CompileError>, end: FoldState, blocks: seq<SourceBlock>)
    requires Fold(s, inside) == Reading(fault, end, blocks)
    ensures Fold(s, Around(ListTag(ordered), at, inside)) == Reading(fault, end, blocks)
  {
    AroundQuiet(s, ListTag(ordered), at, inside, fault, s, end, end, blocks, None);
  }

  ghost predicate ElementMeans(element: Element, s: FoldState, end: FoldState)
    requires ElementReadable(element)
  {
    Fold(s, ElementEvents(element)) == Reading(ElementFault(element), end, PostOrder(ElementForest(element)))
  }

  lemma BlockMeans(element: Element, s: FoldState)
    requires Resting(s) && element.Block? && ElementReadable(element)
    ensures ElementMeans(element, s, s)
  {
    if element.tag.ForeignTag? {
      ForeignRefuses(s, element.tag.structure, element.at, Events(element.inside));
    } else {
      BlockReads(element.tag, element.at, element.inside, s);
      OneNest(ElementForest(element)[0]);
    }
  }

  lemma GridMeans(element: Element, s: FoldState) returns (end: FoldState)
    requires Resting(s) && element.Grid? && ElementReadable(element)
    ensures Resting(end) && ElementMeans(element, s, end)
  {
    end := GridReads(element.at, element.head, element.rows, s);
    OneNest(ElementForest(element)[0]);
  }

  /** Every block holds only blocks of a lower rank: containers, links, code. */
  lemma {:induction false} ContentsRanked(nodes: seq<Node>, closesOn: TagEnd, inLink: bool, inCell: bool)
    requires Inner(nodes, closesOn, inLink, inCell)
    ensures RanksBelow(Contents(nodes), if inLink then 1 else 2)
  {
    if nodes != [] {
      NodeRanked(nodes[0], closesOn, inLink, inCell);
      ContentsRanked(nodes[1..], closesOn, inLink, inCell);
      RanksAppend(NodeContents(nodes[0]), Contents(nodes[1..]), if inLink then 1 else 2);
    }
  }

  lemma {:induction false} NodeRanked(node: Node, closesOn: TagEnd, inLink: bool, inCell: bool)
    requires NodeInner(node, closesOn, inLink, inCell)
    ensures RanksBelow(NodeContents(node), if inLink then 1 else 2)
  {
    match node {
      case Wrapped(tag, _, inside) =>
        if !tag.ForeignTag? {
          ContentsRanked(inside, closesOn, inLink, inCell);
        }
      case Anchor(_, _, inside) =>
        ContentsRanked(inside, closesOn, true, inCell);
        OneRanked(NodeContents(node)[0], 2);
      case CodeSpan(_, _) => OneRanked(NodeContents(node)[0], if inLink then 1 else 2);
      case _ =>
    }
  }

  lemma OneRanked(nest: Nest, rank: nat)
    requires Rank(nest.block.kind) < rank && RanksBelow(nest.inside, Rank(nest.block.kind))
    ensures RanksBelow([nest], rank)
  {
    assert [nest][1..] == [];
  }

  lemma {:induction false} RanksAppend(a: seq<Nest>, b: seq<Nest>, rank: nat)
    requires RanksBelow(a, rank) && RanksBelow(b, rank)
    ensures RanksBelow(a + b, rank)
  {
    if a == [] {
      assert a + b == b;
    } else {
      assert (a + b)[1..] == a[1..] + b;
      RanksAppend(a[1..], b, rank);
    }
  }

  lemma {:induction false} CellsRanked(cells: seq<Cell>)
    requires InnerCells(cells)
    ensures RanksBelow(CellsContents(cells), 2)
  {
    if cells != [] {
      ContentsRanked(cells[0].inside, TableEnd, false, true);
      CellsRanked(cells[1..]);
      RanksAppend(Contents(cells[0].inside), CellsContents(cells[1..]), 2);
    }
  }

  lemma {:induction false} RowsRanked(rows: seq<Row>)
    requires InnerRows(rows)
    ensures RanksBelow(RowsContents(rows), 2)
  {
    if rows != [] {
      CellsRanked(rows[0].cells);
      RowsRanked(rows[1..]);
      RanksAppend(CellsContents(rows[0].cells), RowsContents(rows[1..]), 2);
    }
  }

  lemma {:induction false} ForestRanked(document: seq<Element>)
    requires Readable(document)
    ensures RanksBelow(Forest(document), 3)
  {
    if document != [] {
      ElementRanked(document[0]);
      ForestRanked(document[1..]);
      RanksAppend(ElementForest(document[0]), Forest(document[1..]), 3);
    }
  }

  lemma {:induction false} ElementRanked(element: Element)
    requires ElementReadable(element)
    ensures RanksBelow(ElementForest(element), 3)
  {
    match element {
      case Block(_, _, _) => BlockRanked(element);
      case Grid(_, _, _) => GridRanked(element);
      case Listed(_, _, items) => ForestRanked(items);
      case Stray(_, _) =>
    }
  }

  lemma BlockRanked(element: Element)
    requires element.Block? && ElementReadable(element)
    ensures RanksBelow(ElementForest(element), 3)
  {
    if !element.tag.ForeignTag? {
      ContentsRanked(element.inside, EndOf(element.tag), false, false);
      OneRanked(ElementForest(element)[0], 3);
    }
  }

  lemma GridRanked(element: Element)
    requires element.Grid? && ElementReadable(element)
    ensures RanksBelow(ElementForest(element), 3)
  {
    CellsRanked(element.head.cells);
    RowsRanked(element.rows);
    RanksAppend(CellsContents(element.head.cells), RowsContents(element.rows), 2);
    OneRanked(ElementForest(element)[0], 3);
  }
}
