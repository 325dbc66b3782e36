/**
 From a document to a draft lesson: the event loop with its ceiling, the numbering pass, and
 one segment for each block a voice reads.
 */
module Compile {
  import opened Identity
  import Lesson
  import opened Markdown
  import opened Numbering
  import opened Outline
  import opened Schema
  import opened Selection
  import opened Text
  import opened Wrappers

  const MAX_SOURCE_BLOCKS := 10000

  function BlockReference(index: nat): string {
    Reference("block-", 3, index)
  }

  function Renumbered(blocks: seq<SourceBlock>): (r: seq<SourceBlock>)
    ensures |r| == |blocks| && forall i :: 0 <= i < |r| ==> r[i] == blocks[i].(id := BlockReference(i))
  {
    seq(|blocks|, i requires 0 <= i < |blocks| => blocks[i].(id := BlockReference(i)))
  }

  // ----- parsing a document -----

  /** The first `k` events already emit more blocks than a document may hold. */
  ghost predicate Overflows(events: seq<Located>, k: int) {
    0 <= k <= |events| && Fold(IDLE, events[..k]).Success? && |Fold(IDLE, events[..k]).value.blocks| > MAX_SOURCE_BLOCKS
  }

  /**
   What parsing gives: the ceiling if any prefix passes it, otherwise the fold's refusal, and
   otherwise the fold's blocks sorted and numbered.
   */
  ghost predicate ParsesTo(events: seq<Located>, r: Result<seq<SourceBlock>, CompileError>) {
    var folded := Fold(IDLE, events);
    if exists k :: Overflows(events, k) then r == Failure(TooManySourceBlocks)
    else if folded.Failure? then r == Failure(folded.error)
    else r == Success(Renumbered(SortBlocks(folded.value.blocks)))
  }

  method ParseSource(events: seq<Located>) returns (r: Result<seq<SourceBlock>, CompileError>)
    ensures ParsesTo(events, r)
  {
    var blocks := [];
    var state := new BlockBuilder();
    for i := 0 to |events|
      invariant Fold(IDLE, events[..i]) == Success(Folded(state.State(), blocks))
      invariant forall k :: k <= i ==> !Overflows(events, k)
    {
      var applied := state.Apply(events[i], blocks);
      PrefixNext(events, i);
      if applied.Failure? {
        RefusedFrom(events, i + 1);
        return Failure(applied.error);
      }
      blocks := applied.value;
      if |blocks| > MAX_SOURCE_BLOCKS {
        assert Overflows(events, i + 1);
        return Failure(TooManySourceBlocks);
      }
    }
    assert events[..|events|] == events;
    blocks := SortBlocks(blocks);
    ghost var sorted := blocks;
    for index := 0 to |blocks|
      invariant |blocks| == |sorted|
      invariant forall j :: 0 <= j < index ==> blocks[j] == sorted[j].(id := BlockReference(j))
      invariant forall j :: index <= j < |blocks| ==> blocks[j] == sorted[j]
    {
      blocks := blocks[index := blocks[index].(id := BlockReference(index))];
    }
    assert blocks == Renumbered(sorted);
    return Success(blocks);
  }

  lemma PrefixNext(events: seq<Located>, i: nat)
    requires i < |events|
    ensures Fold(IDLE, events[..i + 1]) == Then(Fold(IDLE, events[..i]), [events[i]])
    ensures Fold(IDLE, events[..i]).Success? ==> Fold(Fold(IDLE, events[..i]).value.state, [events[i]]) == Step(Fold(IDLE, events[..i]).value.state, events[i])
  {
    assert events[..i + 1] == events[..i] + [events[i]];
    FoldAppend(IDLE, events[..i], [events[i]]);
    if Fold(IDLE, events[..i]).Success? {
      FoldOne(Fold(IDLE, events[..i]).value.state, events[i]);
    }
  }

  /** Once a prefix is refused, every longer one is, for the same reason. */
  lemma RefusedFrom(events: seq<Located>, i: nat)
    requires i <= |events| && Fold(IDLE, events[..i]).Failure?
    ensures Fold(IDLE, events) == Fold(IDLE, events[..i])
    ensures forall k :: i <= k ==> !Overflows(events, k)
  {
    forall k | i <= k <= |events| ensures Fold(IDLE, events[..k]) == Fold(IDLE, events[..i]) {
      assert events[..k] == events[..i] + events[i..k];
      FoldAppend(IDLE, events[..i], events[i..k]);
    }
    assert events[..|events|] == events;
  }

  /** A numbered block's reference is its place, so no two blocks share one. */
  lemma ReferencesAreDistinct(blocks: seq<SourceBlock>, i: nat, j: nat)
    requires i < |blocks| && j < |blocks|
    ensures Renumbered(blocks)[i].id == Renumbered(blocks)[j].id <==> i == j
  {
    ReferencesDiffer("block-", 3, i, j);
  }

  ghost predicate Unnumbered(blocks: seq<SourceBlock>) {
    forall b :: b in blocks ==> b.id == ""
  }

  lemma {:induction false} FoldIsUnnumbered(s: FoldState, events: seq<Located>)
    ensures Fold(s, events).Success? ==> Unnumbered(Fold(s, events).value.blocks)
    decreases |events|
  {
    if events != [] && Step(s, events[0]).Success? {
      FoldIsUnnumbered(Step(s, events[0]).value.state, events[1..]);
      assert Unnumbered(Step(s, events[0]).value.blocks);
    }
  }

  lemma RenumberedInjective(a: seq<SourceBlock>, b: seq<SourceBlock>)
    requires Unnumbered(a) && Unnumbered(b) && Renumbered(a) == Renumbered(b)
    ensures a == b
  {
    assert |a| == |Renumbered(a)| == |Renumbered(b)| == |b|;
    forall i | 0 <= i < |a| ensures a[i] == b[i] {
      assert Renumbered(a)[i] == Renumbered(b)[i];
      assert a[i] in a && b[i] in b;
    }
  }

  /**
   A readable document within the ceiling is refused exactly at its first fault. Otherwise,
   when its spans nest, its blocks come numbered in document order, every container before
   what it holds, exactly when no block has the span of a block it holds.
   */
  lemma ParsesInDocumentOrder(document: seq<Element>, length: nat, r: Result<seq<SourceBlock>, CompileError>)
    requires Readable(document) && ParsesTo(DocumentEvents(document), r)
    requires forall k :: !Overflows(DocumentEvents(document), k)
    ensures DocumentFault(document).Some? ==> r == Failure(DocumentFault(document).value)
    ensures DocumentFault(document).None? && Nested(Forest(document), 0, length) ==>
              (r == Success(Renumbered(PreOrder(Forest(document)))) <==> SpansDiffer(Forest(document)))
  {
    var forest := Forest(document);
    var end := DocumentReads(document, IDLE);
    if DocumentFault(document).None? && Nested(forest, 0, length) {
      ForestRanked(document);
      SortedIsPreOrder(forest, 0, length, 3);
      FoldIsUnnumbered(IDLE, DocumentEvents(document));
      SortIsStable(PostOrder(forest));
      OrdersAgree(forest);
      UnnumberedPermutes(PostOrder(forest), SortBlocks(PostOrder(forest)));
      if r == Success(Renumbered(PreOrder(forest))) {
        RenumberedInjective(SortBlocks(PostOrder(forest)), PreOrder(forest));
      }
    }
  }

  lemma UnnumberedPermutes(a: seq<SourceBlock>, b: seq<SourceBlock>)
    requires Unnumbered(a) && multiset(a) == multiset(b)
    ensures Unnumbered(b)
  {
    forall x | x in b ensures x.id == "" {
      assert x in multiset(b);
      assert x in multiset(a);
    }
  }

  // ----- compiling a lesson -----

  /** What a compilation is given beside the document. */
  datatype CompileRequest = CompileRequest(
    lessonId: string,
    language: string,
    speakers: map<string, string>,
    speaker: string,
    role: Lesson.SegmentRole,
    style: DeliveryStyle,
    pauseAfterMs: u32)

  function SegmentReference(index: nat): string {
    Reference("seg-", 4, index)
  }

  function FirstHeading(blocks: seq<SourceBlock>): (r: Option<nat>)
    ensures r.None? <==> forall i :: 0 <= i < |blocks| ==> !blocks[i].kind.Heading?
    ensures r.Some? ==> r.value < |blocks| && blocks[r.value].kind.Heading?
    ensures r.Some? ==> forall j :: 0 <= j < r.value ==> !blocks[j].kind.Heading?
  {
    if blocks == [] then None
    else if blocks[0].kind.Heading? then Some(0)
    else
      var rest := FirstHeading(blocks[1..]);
      assert forall i :: 1 <= i < |blocks| ==> blocks[i] == blocks[1..][i - 1];
      if rest.None? then None else Some(rest.value + 1)
  }

  function DraftSegment(request: CompileRequest, index: nat, block: SourceBlock): Lesson.LessonSegment {
    Lesson.LessonSegment(SegmentReference(index), request.speaker, request.role, [block.id], block.text, block.text,
                         request.style, request.pauseAfterMs, Lesson.Draft, false)
  }

  function DraftSegments(request: CompileRequest, spoken: seq<SourceBlock>): (r: seq<Lesson.LessonSegment>)
    ensures |r| == |spoken| && forall i :: 0 <= i < |r| ==> r[i] == DraftSegment(request, i, spoken[i])
  {
    seq(|spoken|, i requires 0 <= i < |spoken| => DraftSegment(request, i, spoken[i]))
  }

  /** The lesson of a document already parsed into blocks. */
  function LessonOf(blocks: seq<SourceBlock>, request: CompileRequest, contentHash: string): Result<Lesson.AuthoredLesson, CompileError> {
    var title := FirstHeading(blocks);
    var segments := DraftSegments(request, Chosen(blocks, Voiced));
    if title.None? then Failure(NoTitleHeading)
    else if segments == [] then Failure(NoProseToSpeak)
    else Success(Lesson.AuthoredLesson(
      Some(SchemaUri(Lesson.LESSON_SCHEMA_STEM, Lesson.LESSON_SCHEMA_VERSION.major)),
      Spelling(Lesson.LESSON_SCHEMA_VERSION),
      request.lessonId, blocks[title.value].text, request.language, [],
      Some(Lesson.LessonSource(contentHash, [])), request.speakers, segments))
  }

  /** What compiling a document's events gives. */
  ghost predicate CompilesTo(events: seq<Located>, request: CompileRequest, contentHash: string,
                             r: Result<Lesson.AuthoredLesson, CompileError>)
  {
    exists parsed :: ParsesTo(events, parsed) &&
                     r == if parsed.Failure? then Failure(parsed.error) else LessonOf(parsed.value, request, contentHash)
  }

  method CompileLesson(document: string, parser: string -> seq<Located>, h: Hasher, request: CompileRequest)
    returns (r: Result<Lesson.AuthoredLesson, CompileError>)
    ensures CompilesTo(parser(document), request, h(Utf8(document)), r)
  {
    var blocks := ParseSource(parser(document));
    if blocks.Failure? {
      return Failure(blocks.error);
    }
    r := LessonOf(blocks.value, request, h(Utf8(document)));
  }

  /**
   Compiling blocks is refused exactly for want of a heading or of anything to speak.
   Otherwise the lesson says every spoken block once, in order, cites each by its own
   reference, says nothing else, and is titled by the first heading.
   */
  lemma SegmentsCiteInOrder(blocks: seq<SourceBlock>, request: CompileRequest, contentHash: string) returns (cited: seq<nat>)
    ensures Increasing(cited, |blocks|)
    ensures forall i :: 0 <= i < |blocks| ==> (blocks[i].kind in {Paragraph, ListItem, Quotation, Table} <==> i in cited)
    ensures var r := LessonOf(blocks, request, contentHash);
            var titled := exists i :: 0 <= i < |blocks| && blocks[i].kind.Heading?;
            if !titled then r == Failure(NoTitleHeading)
            else if cited == [] then r == Failure(NoProseToSpeak)
            else
              && r.Success? && TitledByFirstHeading(r.value, blocks)
              && |r.value.segments| == |cited|
              && forall j :: 0 <= j < |cited| ==> SaysAndCites(r.value.segments[j], blocks[cited[j]])
  {
    ChosenInOrder(blocks, Voiced);
    cited := Positions(blocks, Voiced);
  }

  ghost predicate SaysAndCites(segment: Lesson.LessonSegment, block: SourceBlock) {
    segment.sourceRefs == [block.id] && segment.spokenText == segment.displayText == block.text
  }

  ghost predicate TitledByFirstHeading(lesson: Lesson.AuthoredLesson, blocks: seq<SourceBlock>) {
    exists i :: 0 <= i < |blocks| && blocks[i].kind.Heading? && lesson.title == blocks[i].text &&
                forall j :: 0 <= j < i ==> !blocks[j].kind.Heading?
  }

  // ----- what is heard follows the document -----

  /** Numbering changes no choice. */
  lemma {:induction false} PositionsSurviveNumbering(blocks: seq<SourceBlock>, which: Choice)
    ensures Positions(Renumbered(blocks), which) == Positions(blocks, which)
  {
    if blocks != [] {
      var last := |blocks| - 1;
      PositionsSurviveNumbering(blocks[..last], which);
      assert Renumbered(blocks)[..last] == Renumbered(blocks[..last]);
    }
  }

  function TextsOf(blocks: seq<SourceBlock>): (r: seq<string>)
    ensures |r| == |blocks| && forall i :: 0 <= i < |r| ==> r[i] == blocks[i].text
  {
    seq(|blocks|, i requires 0 <= i < |blocks| => blocks[i].text)
  }

  lemma NumberedTexts(blocks: seq<SourceBlock>, which: Choice)
    ensures TextsOf(Chosen(Renumbered(blocks), which)) == TextsOf(Chosen(blocks, which))
  {
    ChosenInOrder(blocks, which);
    ChosenInOrder(Renumbered(blocks), which);
    PositionsSurviveNumbering(blocks, which);
  }

  /** What an element gives a listener: a paragraph, an item, a quotation or a table, and nothing else. */
  function ElementHeard(element: Element): seq<string> {
    match element
    case Block(tag, _, inside) => if tag.ParagraphTag? || tag.ItemTag? || tag.QuoteTag? then [Trim(Prose(inside))] else []
    case Grid(_, head, rows) => [Trim(GridText(head, rows))]
    case Listed(_, _, items) => Heard(items)
    case Stray(_, _) => []
  }

  /** The document read aloud, piece by piece. */
  function Heard(document: seq<Element>): seq<string> {
    if document == [] then [] else ElementHeard(document[0]) + Heard(document[1..])
  }

  function ElementTitles(element: Element): seq<string> {
    match element
    case Block(tag, _, inside) => if tag.HeadingTag? then [Trim(Prose(inside))] else []
    case Grid(_, _, _) => []
    case Listed(_, _, items) => Titles(items)
    case Stray(_, _) => []
  }

  /** The document's headings, in order. */
  function Titles(document: seq<Element>): seq<string> {
    if document == [] then [] else ElementTitles(document[0]) + Titles(document[1..])
  }

  lemma {:induction false} PreOrderAppend(a: seq<Nest>, b: seq<Nest>)
    ensures PreOrder(a + b) == PreOrder(a) + PreOrder(b)
  {
    if a == [] {
      assert a + b == b;
    } else {
      TailOfAppend(a, b);
      PreOrderAppend(a[1..], b);
    }
  }

  function Says(document: seq<Element>, which: Choice): seq<string> {
    if which.Voiced? then Heard(document) else Titles(document)
  }

  function ElementSays(element: Element, which: Choice): seq<string> {
    if which.Voiced? then ElementHeard(element) else ElementTitles(element)
  }

  lemma TextsAppend(a: seq<SourceBlock>, b: seq<SourceBlock>)
    ensures TextsOf(a + b) == TextsOf(a) + TextsOf(b)
  {
  }

  /** The blocks of a document that are spoken, and its headings, are those its elements say. */
  lemma {:induction false} ForestIsHeard(document: seq<Element>, which: Choice)
    requires Readable(document)
    ensures TextsOf(Chosen(PreOrder(Forest(document)), which)) == Says(document, which)
  {
    if document != [] {
      ElementIsHeard(document[0], which);
      ForestIsHeard(document[1..], which);
      HeardNext(ElementForest(document[0]), Forest(document[1..]), which);
    }
  }

  lemma HeardNext(first: seq<Nest>, rest: seq<Nest>, which: Choice)
    ensures TextsOf(Chosen(PreOrder(first + rest), which)) ==
              TextsOf(Chosen(PreOrder(first), which)) + TextsOf(Chosen(PreOrder(rest), which))
  {
    PreOrderAppend(first, rest);
    ChosenAppend(PreOrder(first), PreOrder(rest), which);
    TextsAppend(Chosen(PreOrder(first), which), Chosen(PreOrder(rest), which));
  }

  lemma {:induction false} ElementIsHeard(element: Element, which: Choice)
    requires ElementReadable(element)
    ensures TextsOf(Chosen(PreOrder(ElementForest(element)), which)) == ElementSays(element, which)
  {
    match element {
      case Block(_, _, _) => BlockIsHeard(element, which);
      case Grid(_, _, _) =>
        ElementRanked(element);
        OneIsHeard(ElementForest(element)[0], which);
      case Listed(_, _, items) => ForestIsHeard(items, which);
      case Stray(_, _) =>
    }
  }

  lemma BlockIsHeard(element: Element, which: Choice)
    requires element.Block? && ElementReadable(element)
    ensures TextsOf(Chosen(PreOrder(ElementForest(element)), which)) == ElementSays(element, which)
  {
    if !element.tag.ForeignTag? {
      ElementRanked(element);
      OneIsHeard(ElementForest(element)[0], which);
    }
  }

  /** Of a container and what it holds, only the container is chosen. */
  lemma OneIsHeard(nest: Nest, which: Choice)
    requires RanksBelow([nest], 3)
    ensures Chosen(PreOrder([nest]), which) == if which.Takes(nest.block.kind) then [nest.block] else []
  {
    RanksBelowAll(nest.inside, Rank(nest.block.kind));
    OrdersAgree(nest.inside);
    assert [nest][1..] == [];
    assert PreOrder([nest]) == [nest.block] + PreOrder(nest.inside);
    NothingChosen(PreOrder(nest.inside), which);
    ChosenAppend([nest.block], PreOrder(nest.inside), which);
    OneChosen(nest.block, which);
  }

  /** The first heading of the blocks is the first they choose. */
  lemma {:induction false} TitleIsFirstChosen(blocks: seq<SourceBlock>)
    ensures FirstHeading(blocks).None? <==> Chosen(blocks, Headings) == []
    ensures FirstHeading(blocks).Some? ==> blocks[FirstHeading(blocks).value] == Chosen(blocks, Headings)[0]
  {
    if blocks != [] && !blocks[0].kind.Heading? {
      TitleIsFirstChosen(blocks[1..]);
    }
  }

  /**
   A compiled document says its paragraphs, items, quotations and tables, and only them, in
   document order, under its first heading, even where equal spans number a block after what it
   holds. It is refused only for too many blocks, no heading or nothing to say.
   */
  lemma SpeechFollowsTheDocument(document: seq<Element>, length: nat, request: CompileRequest, contentHash: string,
                                 r: Result<Lesson.AuthoredLesson, CompileError>)
    requires Readable(document) && CompilesTo(DocumentEvents(document), request, contentHash, r)
    requires DocumentFault(document).None? && Nested(Forest(document), 0, length)
    ensures if |PostOrder(Forest(document))| > MAX_SOURCE_BLOCKS then r == Failure(TooManySourceBlocks)
            else if Titles(document) == [] then r == Failure(NoTitleHeading)
            else if Heard(document) == [] then r == Failure(NoProseToSpeak)
            else r.Success? && Speak(r.value, Titles(document)[0], Heard(document))
  {
    var forest := Forest(document);
    var end := DocumentReads(document, IDLE);
    var parsed :| ParsesTo(DocumentEvents(document), parsed) &&
                  r == if parsed.Failure? then Failure(parsed.error) else LessonOf(parsed.value, request, contentHash);
    CeilingIsOnTheTotal(DocumentEvents(document));
    if parsed.Success? {
      ForestRanked(document);
      ForestIsHeard(document, Voiced);
      ForestIsHeard(document, Headings);
      SortedChoice(forest, length, Voiced);
      SortedChoice(forest, length, Headings);
      LessonSpeaks(SortBlocks(PostOrder(forest)), request, contentHash, Heard(document), Titles(document));
    }
  }

  /** Where the fold succeeds, some prefix passes the ceiling exactly when all of it does. */
  lemma CeilingIsOnTheTotal(events: seq<Located>)
    requires Fold(IDLE, events).Success?
    ensures (exists k :: Overflows(events, k)) <==> |Fold(IDLE, events).value.blocks| > MAX_SOURCE_BLOCKS
  {
    if |Fold(IDLE, events).value.blocks| > MAX_SOURCE_BLOCKS {
      assert events[..|events|] == events;
      assert Overflows(events, |events|);
    } else {
      WithinCeiling(events);
    }
  }

  /** The lesson is titled so, and its segments say these pieces. */
  ghost predicate Speak(lesson: Lesson.AuthoredLesson, title: string, pieces: seq<string>) {
    && lesson.title == title && |lesson.segments| == |pieces|
    && forall j :: 0 <= j < |pieces| ==> lesson.segments[j].spokenText == pieces[j]
  }

  lemma LessonSpeaks(blocks: seq<SourceBlock>, request: CompileRequest, contentHash: string, heard: seq<string>, titles: seq<string>)
    requires TextsOf(Chosen(blocks, Voiced)) == heard && TextsOf(Chosen(blocks, Headings)) == titles
    ensures var r := LessonOf(Renumbered(blocks), request, contentHash);
            if titles == [] then r == Failure(NoTitleHeading)
            else if heard == [] then r == Failure(NoProseToSpeak)
            else r.Success? && Speak(r.value, titles[0], heard)
  {
    NumberedTexts(blocks, Voiced);
    NumberedTexts(blocks, Headings);
    TitleIsFirstChosen(Renumbered(blocks));
    var said := TextsOf(Chosen(Renumbered(blocks), Voiced));
    assert forall j :: 0 <= j < |heard| ==> said[j] == heard[j];
    assert titles != [] ==> TextsOf(Chosen(Renumbered(blocks), Headings))[0] == titles[0];
  }

  /** Every field the request gives reaches every segment, and every segment awaits review. */
  lemma RequestReachesTheLesson(blocks: seq<SourceBlock>, request: CompileRequest, contentHash: string)
    requires LessonOf(blocks, request, contentHash).Success?
    ensures var lesson := LessonOf(blocks, request, contentHash).value;
            && lesson.lessonId == request.lessonId && lesson.language == request.language && lesson.speakers == request.speakers
            && lesson.source == Some(Lesson.LessonSource(contentHash, [])) && lesson.learningObjectives == []
            && lesson.schemaVersion == "3.1"
            && (forall i :: 0 <= i < |lesson.segments| ==> DraftedAs(lesson.segments[i], request, i))
  {
    assert Decimal(3) == "3" && Decimal(1) == "1";
  }

  ghost predicate DraftedAs(segment: Lesson.LessonSegment, request: CompileRequest, i: nat) {
    && segment.id == SegmentReference(i) && segment.speaker == request.speaker && segment.role == request.role
    && segment.style == request.style && segment.pauseAfterMs == request.pauseAfterMs
    && segment.reviewStatus.Draft? && !segment.editorial
  }

  /** References as the fixtures spell them. */
  lemma FirstReferences()
    ensures BlockReference(0) == "block-001" && SegmentReference(0) == "seg-0001"
  {
    assert Decimal(1) == "1";
    assert Zeros(2) == "00" && Zeros(3) == "000";
  }

  /** A paragraph that is only a link, with nothing after it: the link takes the lower number. */
  lemma LinkOnlyParagraph(destination: string, text: string, length: nat, r: Result<seq<SourceBlock>, CompileError>)
    requires ParsesTo(DocumentEvents([LinkParagraph(destination, text, length)]), r)
    ensures r == Success([SourceBlock(BlockReference(0), Link(destination), text, Span(0, length)),
                          SourceBlock(BlockReference(1), Paragraph, Trim(text), Span(0, length))])
  {
    var link := SourceBlock("", Link(destination), text, Span(0, length));
    var whole := SourceBlock("", Paragraph, Trim(text), Span(0, length));
    LinkParagraphFolds(LinkParagraph(destination, text, length), text, link, whole);
    WithinCeiling(DocumentEvents([LinkParagraph(destination, text, length)]));
    EqualSpansKeepOrder(link, whole);
  }

  lemma EqualSpansKeepOrder(a: SourceBlock, b: SourceBlock)
    requires a.span == b.span
    ensures Renumbered(SortBlocks([a, b])) == [a.(id := BlockReference(0)), b.(id := BlockReference(1))]
  {
    assert [a, b][1..] == [b] && [b][1..] == [];
    assert SortBlocks([b]) == [b];
    assert SortBlocks([a, b]) == [a, b];
  }

  lemma LinkParagraphFolds(paragraph: Element, text: string, link: SourceBlock, whole: SourceBlock)
    requires paragraph.Block? && paragraph.tag == ParagraphTag && |paragraph.inside| == 1 && paragraph.inside[0].Anchor?
    requires paragraph.inside[0].inside == [Plain(text, paragraph.at)] && paragraph.inside[0].at == paragraph.at
    requires link == SourceBlock("", Link(paragraph.inside[0].destination), text, paragraph.at)
    requires whole == SourceBlock("", Paragraph, Trim(text), paragraph.at)
    ensures Fold(IDLE, DocumentEvents([paragraph])) == Success(Folded(IDLE, [link, whole]))
  {
    OnlyLink(paragraph, text);
    BlockReads(ParagraphTag, paragraph.at, paragraph.inside, IDLE);
    assert [paragraph][1..] == [];
    assert DocumentEvents([paragraph]) == ElementEvents(paragraph);
    assert [link] + [whole] == [link, whole];
  }

  /** The ceiling is not passed on the way to a total within it. */
  lemma WithinCeiling(events: seq<Located>)
    requires Fold(IDLE, events).Success? && |Fold(IDLE, events).value.blocks| <= MAX_SOURCE_BLOCKS
    ensures forall k :: !Overflows(events, k)
  {
    forall k ensures !Overflows(events, k) {
      if 0 <= k <= |events| {
        assert events == events[..k] + events[k..];
        FoldAppend(IDLE, events[..k], events[k..]);
      }
    }
  }

  function LinkParagraph(destination: string, text: string, length: nat): Element {
    Block(ParagraphTag, Span(0, length), [Anchor(destination, Span(0, length), [Plain(text, Span(0, length))])])
  }

  lemma OnlyLink(paragraph: Element, text: string)
    requires paragraph.Block? && |paragraph.inside| == 1 && paragraph.inside[0].Anchor?
    requires paragraph.inside[0].inside == [Plain(text, paragraph.at)]
    ensures Inner(paragraph.inside, ParagraphEnd, false, false) && Fault(paragraph.inside).None? && Prose(paragraph.inside) == text
    ensures PostOrder(Contents(paragraph.inside)) ==
              [SourceBlock("", Link(paragraph.inside[0].destination), text, paragraph.inside[0].at)]
  {
    var anchor, plain := paragraph.inside[0], Plain(text, paragraph.at);
    assert paragraph.inside == [anchor] && paragraph.inside[1..] == [] && anchor.inside[1..] == [];
    assert Inner(anchor.inside[1..], ParagraphEnd, true, false) && NodeInner(anchor.inside[0], ParagraphEnd, true, false);
    assert Inner(anchor.inside, ParagraphEnd, true, false);
    assert NodeInner(anchor, ParagraphEnd, false, false) && Inner(paragraph.inside[1..], ParagraphEnd, false, false);
    OneNode(anchor, " ");
    OneNode(plain, " ");
    OneNode(plain, "");
    OneNest(NodeContents(anchor)[0]);
  }

  // ----- the draft at the lesson gate -----

  /** The lesson once a reviewer has approved every segment and changed nothing else. */
  function Reviewed(lesson: Lesson.AuthoredLesson): Lesson.AuthoredLesson {
    lesson.(segments := seq(|lesson.segments|, i requires 0 <= i < |lesson.segments| => lesson.segments[i].(reviewStatus := Lesson.Approved)))
  }

  /** What the gate asks of the fields a request gives the document. */
  ghost predicate UsableHeader(request: CompileRequest) {
    && !Blank(request.lessonId) && Lesson.IsPortableId(request.lessonId)
    && Lesson.Language.Accepted(request.language)
    && (forall s :: s in request.speakers ==> Lesson.UsableProfile(request.speakers[s]))
  }

  /** What the gate asks of the fields a request gives every segment. */
  ghost predicate UsableDelivery(request: CompileRequest) {
    && !Blank(request.speaker) && request.speaker in request.speakers
    && request.pauseAfterMs <= Lesson.MAX_PAUSE_AFTER_MS
    && (request.role.RecallPrompt? ==> Lesson.MIN_RECALL_RESPONSE_MS <= request.pauseAfterMs <= Lesson.MAX_RECALL_RESPONSE_MS)
  }

  ghost predicate UsableWords(b: SourceBlock) {
    !Blank(b.text) && Utf8Len(b.text) <= Lesson.MAX_SEGMENT_TEXT_BYTES
  }

  /** A reference is a portable identifier, at most 24 bytes long. */
  lemma ReferenceIsPortable(prefix: string, width: nat, index: nat)
    requires prefix in ["block-", "seg-"] && width <= 4 && index < MAX_SOURCE_BLOCKS
    ensures var id := Reference(prefix, width, index); !Blank(id) && Lesson.IsPortableId(id)
  {
    var id := Reference(prefix, width, index);
    DecimalLength(index + 1);
    PaddedDigits(index + 1, width);
    assert forall c :: c in prefix ==> 'a' <= c <= 'z' || c == '-';
    assert forall c :: c in id ==> c in prefix || c in ZeroPadded(index + 1, width);
    AsciiLength(id);
    assert id[0] == prefix[0] && id[0] in id && !IsWhitespace(id[0]);
  }

  lemma DecimalLength(n: nat)
    requires n <= MAX_SOURCE_BLOCKS
    ensures |Decimal(n)| <= 5
  {
    assert n / 10 <= 1000 && n / 10 / 10 <= 100 && n / 10 / 10 / 10 <= 10 && n / 10 / 10 / 10 / 10 <= 1;
    assert |Decimal(n / 10 / 10 / 10 / 10)| == 1;
    assert |Decimal(n / 10 / 10 / 10)| <= 2;
    assert |Decimal(n / 10 / 10)| <= 3;
    assert |Decimal(n / 10)| <= 4;
  }

  lemma PaddedDigits(n: nat, width: nat)
    ensures forall c :: c in ZeroPadded(n, width) ==> '0' <= c <= '9'
    ensures |ZeroPadded(n, width)| <= |Decimal(n)| + width
  {
    ZerosAreDigits(if width >= |Decimal(n)| then width - |Decimal(n)| else 0);
  }

  lemma {:induction false} ZerosAreDigits(n: nat)
    ensures forall c :: c in Zeros(n) ==> c == '0'
  {
    if n > 0 { ZerosAreDigits(n - 1); }
  }

  /** The gate never accepts a draft as compiled. */
  lemma DraftIsRefused(blocks: seq<SourceBlock>, request: CompileRequest, contentHash: string)
    requires LessonOf(blocks, request, contentHash).Success?
    ensures !Lesson.LessonInvariants(LessonOf(blocks, request, contentHash).value)
  {
    var lesson := LessonOf(blocks, request, contentHash).value;
    assert !Lesson.SegmentPasses(lesson, 0, 16);
  }

  /**
   Once approved, a compiled lesson passes the gate exactly when the request is usable and the
   spoken words are: its identities, references, schema and provenance never fail.
   */
  lemma ReviewedDraftAtTheGate(blocks: seq<SourceBlock>, request: CompileRequest, contentHash: string)
    requires LessonOf(Renumbered(blocks), request, contentHash).Success? && |blocks| <= MAX_SOURCE_BLOCKS
    ensures var lesson := Reviewed(LessonOf(Renumbered(blocks), request, contentHash).value);
            Lesson.LessonInvariants(lesson) <==>
              && UsableHeader(request) && UsableDelivery(request)
              && (forall b :: b in Chosen(Renumbered(blocks), Voiced) ==> UsableWords(b))
              && |lesson.segments| <= Lesson.MAX_LESSON_SEGMENTS
              && Lesson.AuthoredBytes(lesson, |lesson.segments|) <= Lesson.MAX_AUTHORED_TEXT_BYTES
  {
    var numbered := Renumbered(blocks);
    var lesson, spoken := Reviewed(LessonOf(numbered, request, contentHash).value), Chosen(numbered, Voiced);
    DocumentAtTheGate(lesson, request);
    ChosenInOrder(numbered, Voiced);
    PositionsFit(Positions(numbered, Voiced), |blocks|);
    forall i | 0 <= i < |spoken| ensures Lesson.SegmentPasses(lesson, i, 16) <==> UsableDelivery(request) && UsableWords(spoken[i]) {
      SegmentAtTheGate(lesson, request, spoken[i], i, Positions(numbered, Voiced)[i]);
    }
    GateVerdict(lesson, request, spoken);
  }

  lemma GateVerdict(lesson: Lesson.AuthoredLesson, request: CompileRequest, spoken: seq<SourceBlock>)
    requires |lesson.segments| == |spoken| > 0
    requires Lesson.DocumentInvariants(lesson) <==> UsableHeader(request) && |spoken| <= Lesson.MAX_LESSON_SEGMENTS
    requires forall i :: 0 <= i < |spoken| ==> (Lesson.SegmentPasses(lesson, i, 16) <==> UsableDelivery(request) && UsableWords(spoken[i]))
    ensures Lesson.LessonInvariants(lesson) <==>
              && UsableHeader(request) && UsableDelivery(request)
              && (forall b :: b in spoken ==> UsableWords(b))
              && |lesson.segments| <= Lesson.MAX_LESSON_SEGMENTS
              && Lesson.AuthoredBytes(lesson, |lesson.segments|) <= Lesson.MAX_AUTHORED_TEXT_BYTES
  {
    if Lesson.LessonInvariants(lesson) {
      assert Lesson.SegmentPasses(lesson, 0, 16);
      forall b | b in spoken ensures UsableWords(b) {
        var i :| 0 <= i < |spoken| && spoken[i] == b;
        assert Lesson.SegmentPasses(lesson, i, 16);
      }
    }
  }

  lemma DocumentAtTheGate(lesson: Lesson.AuthoredLesson, request: CompileRequest)
    requires lesson.schema == Some(SchemaUri(Lesson.LESSON_SCHEMA_STEM, Lesson.LESSON_SCHEMA_VERSION.major))
    requires lesson.schemaVersion == Spelling(Lesson.LESSON_SCHEMA_VERSION)
    requires lesson.lessonId == request.lessonId && lesson.language == request.language && lesson.speakers == request.speakers
    requires lesson.learningObjectives == [] && lesson.References() == [] && lesson.segments != []
    ensures Lesson.DocumentInvariants(lesson) <==> UsableHeader(request) && |lesson.segments| <= Lesson.MAX_LESSON_SEGMENTS
  {
    OneSpelling(lesson.schemaVersion, Lesson.LESSON_SCHEMA_VERSION);
  }

  lemma SegmentAtTheGate(lesson: Lesson.AuthoredLesson, request: CompileRequest, block: SourceBlock, i: nat, at: nat)
    requires i < |lesson.segments| && lesson.segments[i] == DraftSegment(request, i, block).(reviewStatus := Lesson.Approved)
    requires forall j :: 0 <= j < i ==> lesson.segments[j].id == SegmentReference(j)
    requires lesson.speakers == request.speakers && block.id == BlockReference(at)
    requires i < MAX_SOURCE_BLOCKS && at < MAX_SOURCE_BLOCKS
    ensures Lesson.SegmentPasses(lesson, i, 16) <==> UsableDelivery(request) && UsableWords(block)
  {
    ReferenceIsPortable("seg-", 4, i);
    ReferenceIsPortable("block-", 3, at);
    forall j | 0 <= j < i ensures lesson.segments[j].id != lesson.segments[i].id {
      ReferencesDiffer("seg-", 4, i, j);
    }
    assert lesson.segments[i].sourceRefs == [BlockReference(at)];
    Gated(lesson, request, block, i);
  }

  /** With a sound identity and one sound reference, only the request and the words are left to check. */
  lemma Gated(lesson: Lesson.AuthoredLesson, request: CompileRequest, block: SourceBlock, i: nat)
    requires i < |lesson.segments| && lesson.speakers == request.speakers
    requires var s := lesson.segments[i];
             && !Blank(s.id) && Lesson.IsPortableId(s.id) && (forall j :: 0 <= j < i ==> lesson.segments[j].id != s.id)
             && |s.sourceRefs| == 1 && !Blank(s.sourceRefs[0]) && Lesson.IsPortableId(s.sourceRefs[0])
             && s.spokenText == s.displayText == block.text && s.reviewStatus.Approved? && s.speaker == request.speaker
             && s.role == request.role && s.pauseAfterMs == request.pauseAfterMs
    ensures Lesson.SegmentPasses(lesson, i, 16) <==> UsableDelivery(request) && UsableWords(block)
  {}

  lemma {:induction false} PositionsFit(positions: seq<nat>, bound: nat)
    requires Increasing(positions, bound)
    ensures |positions| <= bound
  {
    if positions != [] {
      var last := |positions| - 1;
      PositionsFit(positions[..last], positions[last]);
    }
  }
}
