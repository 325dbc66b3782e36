/**
 The fold from Markdown events to source blocks: a builder that holds at most one open
 block, one table row and one link while events arrive.
 */
module Markdown {
  import opened Text
  import opened Wrappers

  /** A byte range of the source document. */
  datatype Span = Span(start: nat, end: nat)

  datatype SourceBlockKind =
    | Heading(level: nat)
    | Paragraph
    | ListItem
    | FencedCode(info: string)
    | InlineCode
    | Quotation
    | Link(destination: string)
    | Table
    | PronunciationDirective
  {
    predicate IsSpoken() {
      match this
      case Paragraph | ListItem | Quotation | Table => true
      case Heading(_) | FencedCode(_) | InlineCode | Link(_) | PronunciationDirective => false
    }
  }

  datatype SourceBlock = SourceBlock(id: string, kind: SourceBlockKind, text: string, span: Span)

  const PRONUNCIATION_FENCE := "pronounce"

  /** The structures outside the nine block kinds, named as refusals name them. */
  datatype Structure =
    | HtmlBlock | InlineHtml | FootnoteReference | TaskListMarker | ThematicBreak | MathSpan | Image
    | FootnoteDefinition | Decoration

  datatype CompileError =
    | UnsupportedStructure(structure: Structure, offset: nat)
    | EmptyTableCell(offset: nat, column: string)
    | TooManySourceBlocks
    | NoTitleHeading
    | NoProseToSpeak

  // ----- parser events -----

  datatype Tag =
    | HeadingTag(level: nat)
    | ParagraphTag
    | ItemTag
    | QuoteTag(alert: bool)
    | FencedTag(info: string)
    | IndentedTag
    | LinkTag(destination: string)
    | TableTag | HeadTag | RowTag | CellTag
    | ListTag(ordered: bool)
    | EmphasisTag | StrongTag
    | ForeignTag(structure: Structure)

  datatype TagEnd =
    | HeadingEnd(level: nat)
    | ParagraphEnd
    | ItemEnd
    | QuoteEnd(alert: bool)
    | CodeBlockEnd
    | LinkEnd
    | TableEnd | HeadEnd | RowEnd | CellEnd
    | ListEnd(ordered: bool)
    | EmphasisEnd | StrongEnd
    | ForeignEnd(structure: Structure)

  /** The end the parser sends for a tag. */
  function EndOf(tag: Tag): TagEnd {
    match tag
    case HeadingTag(level) => HeadingEnd(level)
    case ParagraphTag => ParagraphEnd
    case ItemTag => ItemEnd
    case QuoteTag(alert) => QuoteEnd(alert)
    case FencedTag(_) => CodeBlockEnd
    case IndentedTag => CodeBlockEnd
    case LinkTag(_) => LinkEnd
    case TableTag => TableEnd
    case HeadTag => HeadEnd
    case RowTag => RowEnd
    case CellTag => CellEnd
    case ListTag(ordered) => ListEnd(ordered)
    case EmphasisTag => EmphasisEnd
    case StrongTag => StrongEnd
    case ForeignTag(structure) => ForeignEnd(structure)
  }

  predicate IsBlockEnd(end: TagEnd) {
    end.HeadingEnd? || end.ParagraphEnd? || end.ItemEnd? || end.QuoteEnd? || end.CodeBlockEnd? || end.TableEnd?
  }

  datatype Event =
    | Start(tag: Tag)
    | End(end: TagEnd)
    | Words(text: string)
    | Code(text: string)
    | SoftBreak
    | HardBreak
    | Foreign(structure: Structure)

  datatype Located = Located(event: Event, span: Span)

  // ----- one event -----

  datatype OpenBlock = OpenBlock(kind: SourceBlockKind, text: string, span: Span, closesOn: TagEnd)

  datatype OpenLink = OpenLink(destination: string, text: string, span: Span)

  datatype FoldState = FoldState(
    open: Option<OpenBlock>,
    header: seq<string>,
    cells: seq<string>,
    cell: Option<string>,
    link: Option<OpenLink>)

  const IDLE := FoldState(None, [], [], None, None)

  /** The builder's fields after an event, and the blocks it pushed. */
  datatype Folded = Folded(state: FoldState, blocks: seq<SourceBlock>)

  type FoldResult = Result<Folded, CompileError>

  /** The outermost block wins: nothing opens inside an open block. */
  function Opened(s: FoldState, kind: SourceBlockKind, span: Span, closesOn: TagEnd): FoldState {
    if s.open.Some? then s else s.(open := Some(OpenBlock(kind, "", span, closesOn)))
  }

  /** The open block is pushed at the end tag it waits for. */
  function Closed(s: FoldState, end: TagEnd): Folded {
    if s.open.None? || s.open.value.closesOn != end then Folded(s, [])
    else
      var open := s.open.value;
      Folded(s.(open := None), [SourceBlock("", open.kind, Trim(open.text), open.span)])
  }

  function CodeKind(info: string): SourceBlockKind {
    if Trim(info) == PRONUNCIATION_FENCE then PronunciationDirective else FencedCode(info)
  }

  /** A fence is a directive exactly when its info is the word, between white space; otherwise it is code with that info. */
  lemma DirectivesAreNamed(info: string)
    ensures CodeKind(info) == PronunciationDirective <==> exists before, after :: Surrounds(before, "pronounce", after, info)
    ensures CodeKind(info) != PronunciationDirective ==> CodeKind(info) == FencedCode(info)
  {
    if Trim(info) == PRONUNCIATION_FENCE {
      var before, after := TrimTakesTheEnds(info);
      assert Surrounds(before, "pronounce", after, info);
    }
    if before, after :| Surrounds(before, "pronounce", after, info) {
      TrimBetween(before, "pronounce", after);
    }
  }

  ghost predicate Surrounds(before: string, word: string, after: string, info: string) {
    Blank(before) && Blank(after) && info == before + word + after
  }

  /** A table's own cell takes the text if one is being read, and the open block otherwise. */
  function WithText(s: FoldState, payload: string): FoldState {
    if s.cell.Some? then s.(cell := Some(s.cell.value + payload))
    else if s.open.Some? then s.(open := Some(s.open.value.(text := s.open.value.text + payload)))
    else s
  }

  function WithLabel(s: FoldState, words: string): FoldState {
    if s.link.Some? then s.(link := Some(s.link.value.(text := s.link.value.text + words))) else s
  }

  /** A break reaches the open block even while a cell is being read. */
  function WithBreak(s: FoldState): FoldState {
    if s.open.Some? then s.(open := Some(s.open.value.(text := s.open.value.text + " "))) else s
  }

  function JoinWith(pieces: seq<string>, separator: string): string {
    if pieces == [] then ""
    else if |pieces| == 1 then pieces[0]
    else pieces[0] + separator + JoinWith(pieces[1..], separator)
  }

  /** `zip` stops at the shorter side. */
  function Paired(header: seq<string>, cells: seq<string>): (n: nat)
    ensures n <= |header| && n <= |cells| && (n == |header| || n == |cells|)
  {
    if |header| < |cells| then |header| else |cells|
  }

  /** One row: each cell named by its column header, ended as a sentence. */
  function Sentence(header: seq<string>, cells: seq<string>): string {
    var pairs := seq(Paired(header, cells), i requires 0 <= i < Paired(header, cells) => header[i] + ": " + cells[i]);
    JoinWith(pairs, ", ") + "."
  }

  function WithSentence(text: string, sentence: string): string {
    (if text == "" then text else text + " ") + sentence
  }

  function WithRow(s: FoldState): FoldState {
    if s.open.None? then s
    else s.(open := Some(s.open.value.(text := WithSentence(s.open.value.text, Sentence(s.header, s.cells)))))
  }

  function FirstBlank(cells: seq<string>): (r: Option<nat>)
    ensures r.None? <==> forall i :: 0 <= i < |cells| ==> !Blank(cells[i])
    ensures r.Some? ==> r.value < |cells| && Blank(cells[r.value])
    ensures r.Some? ==> forall j :: 0 <= j < r.value ==> !Blank(cells[j])
  {
    if cells == [] then None
    else if Blank(cells[0]) then Some(0)
    else
      var rest := FirstBlank(cells[1..]);
      assert forall i :: 1 <= i < |cells| ==> cells[i] == cells[1..][i - 1];
      if rest.None? then None else Some(rest.value + 1)
  }

  function TableOffset(s: FoldState): nat {
    if s.open.Some? then s.open.value.span.start else 0
  }

  /** Why a header row is refused: a column without a name. */
  function HeaderFault(offset: nat, header: seq<string>): Option<CompileError> {
    var blank := FirstBlank(header);
    if blank.None? then None else Some(EmptyTableCell(offset, "column " + Decimal(blank.value + 1)))
  }

  /** Why a row is refused: a named column without a value. */
  function RowFault(offset: nat, header: seq<string>, cells: seq<string>): Option<CompileError> {
    var blank := FirstBlank(cells[..Paired(header, cells)]);
    if blank.None? then None else Some(EmptyTableCell(offset, header[blank.value]))
  }

  function Done(s: FoldState): FoldResult {
    Success(Folded(s, []))
  }

  function Begin(s: FoldState, tag: Tag, span: Span): FoldResult {
    match tag
    case HeadingTag(level) => Done(Opened(s, Heading(level), span, HeadingEnd(level)))
    case ParagraphTag => Done(Opened(s, Paragraph, span, ParagraphEnd))
    case ItemTag => Done(Opened(s, ListItem, span, ItemEnd))
    case QuoteTag(_) => Done(Opened(s, Quotation, span, QuoteEnd(false)))
    case FencedTag(info) => Done(Opened(s, CodeKind(info), span, CodeBlockEnd))
    case IndentedTag => Done(Opened(s, CodeKind(""), span, CodeBlockEnd))
    case LinkTag(destination) => Done(s.(link := Some(OpenLink(destination, "", span))))
    case TableTag => Done(Opened(s.(header := []), Table, span, TableEnd))
    case HeadTag => Done(s.(cells := []))
    case RowTag => Done(s.(cells := []))
    case CellTag => Done(s.(cell := Some("")))
    case ListTag(_) => Done(s)
    case EmphasisTag => Done(s)
    case StrongTag => Done(s)
    case ForeignTag(structure) => Failure(UnsupportedStructure(structure, span.start))
  }

  function Finish(s: FoldState, end: TagEnd): FoldResult {
    match end
    case HeadingEnd(_) => Success(Closed(s, end))
    case ParagraphEnd => Success(Closed(s, end))
    case ItemEnd => Success(Closed(s, end))
    case QuoteEnd(_) => Success(Closed(s, end))
    case CodeBlockEnd => Success(Closed(s, end))
    case TableEnd => Success(Closed(s, end))
    case CellEnd => Done(if s.cell.Some? then s.(cell := None, cells := s.cells + [s.cell.value]) else s)
    case HeadEnd =>
      var fault := HeaderFault(TableOffset(s), s.cells);
      if fault.Some? then Failure(fault.value) else Done(s.(header := s.cells, cells := []))
    case RowEnd =>
      var fault := RowFault(TableOffset(s), s.header, s.cells);
      if fault.Some? then Failure(fault.value) else Done(WithRow(s))
    case LinkEnd =>
      if s.link.None? then Done(s)
      else
        var link := s.link.value;
        Success(Folded(s.(link := None), [SourceBlock("", Link(link.destination), link.text, link.span)]))
    case ListEnd(_) => Done(s)
    case EmphasisEnd => Done(s)
    case StrongEnd => Done(s)
    case ForeignEnd(_) => Done(s)
  }

  function Step(s: FoldState, e: Located): FoldResult {
    match e.event
    case Start(tag) => Begin(s, tag, e.span)
    case End(end) => Finish(s, end)
    case Words(text) => Done(WithLabel(WithText(s, text), text))
    case Code(text) => Success(Folded(WithLabel(WithText(s, text), text), [SourceBlock("", InlineCode, text, e.span)]))
    case SoftBreak => Done(WithBreak(s))
    case HardBreak => Done(WithBreak(s))
    case Foreign(structure) => Failure(UnsupportedStructure(structure, e.span.start))
  }

  /** Every event in turn, up to the first refusal. */
  function Fold(s: FoldState, events: seq<Located>): FoldResult
    decreases |events|, 0
  {
    if events == [] then Done(s) else Then(Step(s, events[0]), events[1..])
  }

  /** The rest of the events, after the blocks already pushed. */
  function Then(r: FoldResult, events: seq<Located>): FoldResult
    decreases |events|, 1
  {
    if r.Failure? then r
    else
      var rest := Fold(r.value.state, events);
      if rest.Failure? then rest else Success(Folded(rest.value.state, r.value.blocks + rest.value.blocks))
  }

  lemma {:induction false} FoldAppend(s: FoldState, a: seq<Located>, b: seq<Located>)
    ensures Fold(s, a + b) == Then(Fold(s, a), b)
    decreases a
  {
    if a == [] {
      assert a + b == b;
      assert Fold(s, b).Success? ==> [] + Fold(s, b).value.blocks == Fold(s, b).value.blocks;
    } else {
      assert (a + b)[1..] == a[1..] + b;
      var first := Step(s, a[0]);
      if first.Success? {
        FoldAppend(first.value.state, a[1..], b);
        Associative(first.value.blocks, Fold(first.value.state, a[1..]), b);
      }
    }
  }

  lemma Associative(blocks: seq<SourceBlock>, r: FoldResult, b: seq<Located>)
    ensures r.Success? && Then(r, b).Success? ==>
              var rest := Then(r, b).value.blocks;
              blocks + rest == blocks + r.value.blocks + Fold(r.value.state, b).value.blocks
  {}

  lemma FoldOne(s: FoldState, e: Located)
    ensures Fold(s, [e]) == Step(s, e)
  {
    assert [e][1..] == [];
    var step := Step(s, e);
    assert step.Success? ==> step.value.blocks + [] == step.value.blocks;
  }

  // ----- the builder -----

  class BlockBuilder {
    var open: Option<OpenBlock>
    var tableHeader: seq<string>
    var tableCells: seq<string>
    var tableCell: Option<string>
    var link: Option<OpenLink>

    ghost function State(): FoldState
      reads this
    {
      FoldState(open, tableHeader, tableCells, tableCell, link)
    }

    constructor ()
      ensures State() == IDLE
    {
      open, tableHeader, tableCells, tableCell, link := None, [], [], None, None;
    }

    /** Folds one event, giving `blocks` with what it emitted; a refused builder is not used again. */
    method Apply(e: Located, blocks: seq<SourceBlock>) returns (r: Result<seq<SourceBlock>, CompileError>)
      modifies this
      ensures var step := Step(old(State()), e);
              if step.Failure? then r == Failure(step.error)
              else r == Success(blocks + step.value.blocks) && State() == step.value.state
    {
      assert blocks + [] == blocks;
      match e.event {
        case Start(tag) =>
          var fault := StartTag(tag, e.span);
          return if fault.Some? then Failure(fault.value) else Success(blocks);
        case End(end) =>
          r := EndTag(end, blocks);
        case Words(text) =>
          PushText(text);
          r := Success(blocks);
        case Code(text) =>
          PushText(text);
          r := Success(blocks + [SourceBlock("", InlineCode, text, e.span)]);
        case SoftBreak =>
          PushBreak();
          r := Success(blocks);
        case HardBreak =>
          PushBreak();
          r := Success(blocks);
        case Foreign(structure) =>
          r := Failure(UnsupportedStructure(structure, e.span.start));
      }
    }

    method PushText(text: string)
      modifies this
      ensures State() == WithLabel(WithText(old(State()), text), text)
    {
      if tableCell.Some? {
        tableCell := Some(tableCell.value + text);
      } else if open.Some? {
        open := Some(open.value.(text := open.value.text + text));
      }
      if link.Some? {
        link := Some(link.value.(text := link.value.text + text));
      }
    }

    method PushBreak()
      modifies this`open
      ensures State() == WithBreak(old(State()))
    {
      if open.Some? {
        open := Some(open.value.(text := open.value.text + " "));
      }
    }

    method StartTag(tag: Tag, span: Span) returns (fault: Option<CompileError>)
      modifies this
      ensures var begin := Begin(old(State()), tag, span);
              if begin.Failure? then fault == Some(begin.error)
              else fault == None && State() == begin.value.state && begin.value.blocks == []
    {
      fault := None;
      match tag {
        case HeadingTag(level) => OpenAs(Heading(level), span, HeadingEnd(level));
        case ParagraphTag => OpenAs(Paragraph, span, ParagraphEnd);
        case ItemTag => OpenAs(ListItem, span, ItemEnd);
        case QuoteTag(_) => OpenAs(Quotation, span, QuoteEnd(false));
        case FencedTag(info) => OpenAs(CodeKind(info), span, CodeBlockEnd);
        case IndentedTag => OpenAs(CodeKind(""), span, CodeBlockEnd);
        case LinkTag(destination) => link := Some(OpenLink(destination, "", span));
        case TableTag =>
          tableHeader := [];
          OpenAs(Table, span, TableEnd);
        case HeadTag => tableCells := [];
        case RowTag => tableCells := [];
        case CellTag => tableCell := Some("");
        case ListTag(_) =>
        case EmphasisTag =>
        case StrongTag =>
        case ForeignTag(structure) => fault := Some(UnsupportedStructure(structure, span.start));
      }
    }

    method EndTag(end: TagEnd, blocks: seq<SourceBlock>) returns (r: Result<seq<SourceBlock>, CompileError>)
      modifies this
      ensures var finish := Finish(old(State()), end);
              if finish.Failure? then r == Failure(finish.error)
              else r == Success(blocks + finish.value.blocks) && State() == finish.value.state
    {
      assert blocks + [] == blocks;
      r := Success(blocks);
      match end {
        case HeadingEnd(_) => r := Close(end, blocks);
        case ParagraphEnd => r := Close(end, blocks);
        case ItemEnd => r := Close(end, blocks);
        case QuoteEnd(_) => r := Close(end, blocks);
        case CodeBlockEnd => r := Close(end, blocks);
        case TableEnd => r := Close(end, blocks);
        case CellEnd =>
          if tableCell.Some? {
            tableCells := tableCells + [tableCell.value];
            tableCell := None;
          }
        case HeadEnd =>
          tableHeader, tableCells := tableCells, [];
          var offset := if open.Some? then open.value.span.start else 0;
          var blank := FirstBlank(tableHeader);
          if blank.Some? {
            return Failure(EmptyTableCell(offset, "column " + Decimal(blank.value + 1)));
          }
        case RowEnd =>
          var offset := if open.Some? then open.value.span.start else 0;
          var fault := CheckRow(offset, tableHeader, tableCells);
          if fault.Some? {
            return Failure(fault.value);
          }
          AppendTableRow();
        case LinkEnd =>
          if link.Some? {
            r := Success(blocks + [SourceBlock("", Link(link.value.destination), link.value.text, link.value.span)]);
            link := None;
          }
        case ListEnd(_) =>
        case EmphasisEnd =>
        case StrongEnd =>
        case ForeignEnd(_) =>
      }
    }

    method OpenAs(kind: SourceBlockKind, span: Span, closesOn: TagEnd)
      modifies this`open
      ensures State() == Opened(old(State()), kind, span, closesOn)
    {
      if open.Some? {
        return;
      }
      open := Some(OpenBlock(kind, "", span, closesOn));
    }

    method Close(end: TagEnd, blocks: seq<SourceBlock>) returns (r: Result<seq<SourceBlock>, CompileError>)
      modifies this`open
      ensures var closed := Closed(old(State()), end);
              r == Success(blocks + closed.blocks) && State() == closed.state
    {
      assert blocks + [] == blocks;
      if open.None? || open.value.closesOn != end {
        return Success(blocks);
      }
      r := Success(blocks + [SourceBlock("", open.value.kind, Trim(open.value.text), open.value.span)]);
      open := None;
    }

    method AppendTableRow()
      modifies this`open
      ensures State() == WithRow(old(State()))
    {
      if open.None? {
        return;
      }
      var text := open.value.text;
      if text != "" {
        text := text + " ";
      }
      open := Some(open.value.(text := text + Sentence(tableHeader, tableCells)));
    }
  }

  /** The first paired cell with no value, in column order. */
  method CheckRow(offset: nat, header: seq<string>, cells: seq<string>) returns (fault: Option<CompileError>)
    ensures fault == RowFault(offset, header, cells)
  {
    var paired := cells[..Paired(header, cells)];
    for column := 0 to |paired|
      invariant forall j :: 0 <= j < column ==> !Blank(paired[j])
    {
      if Blank(cells[column]) {
        return Some(EmptyTableCell(offset, header[column]));
      }
    }
    return None;
  }

  // ----- every stream -----

  /** What the events add to an open block that no table is feeding. */
  function Payload(events: seq<Located>): string {
    if events == [] then ""
    else
      (match events[0].event
       case Words(text) => text
       case Code(text) => text
       case SoftBreak => " "
       case HardBreak => " "
       case _ => "") + Payload(events[1..])
  }

  ghost predicate EndsAt(events: seq<Located>, k: int, end: TagEnd) {
    0 <= k < |events| && events[k].event == End(end)
  }

  /** No table cell or row among the events. */
  ghost predicate NoTable(events: seq<Located>) {
    forall i :: 0 <= i < |events| ==> events[i].event != Start(CellTag) && events[i].event != End(RowEnd)
  }

  /**
   Whatever arrives, well nested or not, an open block keeps its kind, its start and the tag
   it waits for until that tag arrives, and outside tables its text grows by exactly the payload.
   */
  lemma {:induction false} OpenBlockPersists(s: FoldState, events: seq<Located>)
    requires s.open.Some? && Fold(s, events).Success?
    requires forall k :: !EndsAt(events, k, s.open.value.closesOn)
    decreases events
    ensures var open := Fold(s, events).value.state.open;
            && open.Some?
            && open.value == s.open.value.(text := open.value.text)
            && (s.cell.None? && NoTable(events) ==> open.value.text == s.open.value.text + Payload(events))
  {
    if events != [] {
      assert !EndsAt(events, 0, s.open.value.closesOn);
      var next := FoldNext(s, events);
      forall k ensures !EndsAt(events[1..], k, s.open.value.closesOn) {
        assert !EndsAt(events, k + 1, s.open.value.closesOn);
      }
      OpenBlockPersists(next, events[1..]);
    }
  }

  lemma FoldNext(s: FoldState, events: seq<Located>) returns (next: FoldState)
    requires s.open.Some? && events != [] && Fold(s, events).Success? && events[0].event != End(s.open.value.closesOn)
    ensures Fold(next, events[1..]).Success? && Fold(s, events).value.state == Fold(next, events[1..]).value.state
    ensures next.open.Some? && next.open.value == s.open.value.(text := next.open.value.text)
    ensures NoTable(events) ==> NoTable(events[1..])
    ensures s.cell.None? && NoTable(events) ==>
              next.cell.None? && next.open.value.text + Payload(events[1..]) == s.open.value.text + Payload(events)
  {
    next := Step(s, events[0]).value.state;
    StepKeepsOpen(s, events[0]);
    PayloadNext(events);
    Associate(s.open.value.text, Payload([events[0]]), Payload(events[1..]));
    assert NoTable(events) ==> NoTable([events[0]]);
  }

  lemma PayloadNext(events: seq<Located>)
    requires events != []
    ensures Payload(events) == Payload([events[0]]) + Payload(events[1..])
  {
    assert [events[0]][1..] == [];
  }

  lemma StepKeepsOpen(s: FoldState, e: Located)
    requires s.open.Some? && Step(s, e).Success? && e.event != End(s.open.value.closesOn)
    ensures var next := Step(s, e).value.state;
            && next.open.Some?
            && next.open.value == s.open.value.(text := next.open.value.text)
            && (s.cell.None? && NoTable([e]) ==> next.cell.None? && next.open.value.text == s.open.value.text + Payload([e]))
  {
    assert [e][0] == e && Payload([e]) == Payload([e]) + Payload([e][1..]);
  }

  /**
   Whatever arrives, an open block is pushed by the first end equal to the one it waits for,
   with the text that came before it.
   */
  lemma ClosesAtFirstEnd(s: FoldState, events: seq<Located>, k: nat)
    requires s.open.Some? && IsBlockEnd(s.open.value.closesOn)
    requires EndsAt(events, k, s.open.value.closesOn) && forall j :: 0 <= j < k ==> !EndsAt(events, j, s.open.value.closesOn)
    requires Fold(s, events[..k]).Success?
    ensures var before := Fold(s, events[..k]).value;
            && Fold(s, events[..k + 1]).Success? && before.state.open.Some?
            && var after := Fold(s, events[..k + 1]).value;
               && after.state.open.None?
               && after.blocks == before.blocks + [SourceBlock("", s.open.value.kind, Trim(before.state.open.value.text), s.open.value.span)]
               && (s.cell.None? && NoTable(events[..k]) ==> before.state.open.value.text == s.open.value.text + Payload(events[..k]))
  {
    forall j ensures !EndsAt(events[..k], j, s.open.value.closesOn) {
      assert 0 <= j < k ==> !EndsAt(events, j, s.open.value.closesOn);
    }
    OpenBlockPersists(s, events[..k]);
    assert events[..k + 1] == events[..k] + [events[k]];
    FoldAppend(s, events[..k], [events[k]]);
    FoldOne(Fold(s, events[..k]).value.state, events[k]);
  }
}
