# What a lesson renders to, and under which identity

study-tts turns an authored lesson into audio. The parts proved here decide what that audio is
and what it is called: the canonical bytes that are hashed into cache keys and plan hashes, the
plans and recorded takes built on them, the compiler from Markdown to a draft lesson, the gate a
lesson must pass, the worker that renders, the job document that records progress, and the RIFF
walk that inspects the result. Everything runs on in-memory data.

| file | models |
|---|---|
| `Wrappers.dfy`, `Text.dfy` | options and results; UTF-8, byte order, decimals, trimming, splitting |
| `Canonical.dfy`, `Decode.dfy` | the canonical serializer as buffer-appending methods, and a strict reader that accepts exactly what it writes |
| `Identity.dfy` | the synthesis key and its input list |
| `Plan.dfy` | planning, plan hashes, resume, retakes |
| `Takes.dfy` | recorded selections: validation, reconciliation, verification |
| `Markdown.dfy` | the block builder as a class, its step function, laws for every event stream |
| `Outline.dfy` | documents as trees, what they mean, and the proof that the fold reads that meaning |
| `Nesting.dfy` | blocks that hold their own tag |
| `Linearization.dfy` | what a table's sentences say, pair by pair and row by row, and a reader of one |
| `Conservation.dfy` | which words reach a block, for every event stream and every tree |
| `Numbering.dfy` | the stable sort, pre-order and post-order, block references |
| `Selection.dfy` | choosing the spoken blocks or the headings, before or after sorting |
| `Compile.dfy` | the parse loop, draft segments, and the draft at the lesson gate |
| `Lesson.dfy`, `Diagnostics.dfy`, `AuthoredText.dfy` | the lesson gate, where its refusals point, what it counts |
| `Pointer.dfy`, `Schema.dfy`, `Language.dfy`, `Grammar.dfy` | JSON Pointers, schema versions, language tags and their grammar |
| `Protocol.dfy`, `Worker.dfy` | the bounded line reader, the nesting check, the session and its loop |
| `Job.dfy` | the job state machine and its runs |
| `Riff.dfy` | the RIFF chunk walk and a writer it inverts |

A digest is a parameter, a function from bytes to a string. Nothing assumes it is injective:
exact results are stated on preimages, and results about digests name the finite set of preimages
on which the digest must not collide. A code point is a `char`, so a `string` is a Rust `String`,
and byte lengths are lengths of its UTF-8 form.

Code that changes state step by step is a class or a method with loops, proved against a
specification function, and the properties are lemmas about that function. The main chain for
Markdown is: `BlockBuilder.Apply` computes `Step`; folding `Step` over the events of any readable
document gives `DocumentFault` or the post-order of `Forest`; sorting that post-order gives the
pre-order exactly when no block shares its span with a block inside it; `ParseSource` numbers the
result; `LessonOf` cites it, and what is spoken follows the document in every case.

## What the code does where its words say something else

- A block reference is said to follow the source because "a container always spans further than
  what it holds" (`crates/study-tts-core/src/markdown.rs:316-319`). A paragraph that is only a link
  and ends the file has the link's span, and the link then takes the lower number.
  `Compile.LinkOnlyParagraph` is that input, `Numbering.SortedIsPreOrder` the exact condition.
- A block closes on the first end tag equal to its own (`crates/study-tts-core/src/markdown.rs:662`),
  so a list item that holds a list closes with the inner list's first item.
  `Nesting.ClosesAtOwnEnd` is the exact condition. What follows is emitted apart if a paragraph
  holds it (`Conservation.LooseItemSplits`). If it is bare text it is in no block at all, and
  nothing is refused (`Conservation.TightItemLosesWords`), although text outside any block is said
  to lose nothing because every run of prose has a paragraph
  (`crates/study-tts-core/src/markdown.rs:401-404`). `Conservation.WordsReachBlocks` and
  `Conservation.TreesKeepTheirWords` say exactly when no words are lost.
- An alert quotation opens a block that waits for the end of a plain quotation
  (`crates/study-tts-core/src/markdown.rs:498`), so the tree theorem asks that top-level quotations
  carry no alert. The alert option is not enabled by the parser the code builds.
- A link's label receives text and code but not breaks, unlike the prose around it
  (`crates/study-tts-core/src/markdown.rs:411-440`): two words on two lines join in the label.
- `NoTitleHeading` is documented as a document that "opens with no heading"; the code takes the
  first heading anywhere (`crates/study-tts-core/src/markdown.rs:781-785`).
- A failed render may go straight to verification (`crates/study-tts-core/src/job.rs:99-112`), so a
  verified run need not have been `Rendered`. `Job.VerifiedWithoutRendered` is such a run and
  `Job.RenderedUnlessRenderFailed` says exactly when a run passes through `Rendered`.

## Model

| member | source | states |
|---|---|---|
| Text.LessIsByteOrder | crates/study-tts-core/src/canonical.rs:55-67 | The map's key order by code point is the order of the keys' UTF-8 bytes. |
| Text.ReadDecimal | crates/study-tts-core/src/canonical.rs:127-129 | Reading the digits of a printed number gives the number, whatever follows. |
| Text.BlankIsTrim | crates/study-tts-core/src/markdown.rs:583-612 | A text trims to nothing exactly when every character is White_Space. |
| Text.SplitPieces | crates/study-tts-core/src/language.rs:79-90 | Splitting loses nothing: the pieces join to the text and none holds the separator. |
| Canonical.BuildObject | crates/study-tts-core/src/canonical.rs:55-67 | Succeeds exactly for pairwise distinct field names, and then the map holds exactly the fields given; otherwise names a repeated field. |
| Canonical.FieldsInjective | crates/study-tts-core/src/canonical.rs:55-67 | Two field lists with the same distinct names and the same map are the same list. |
| Canonical.WriteJsonString | crates/study-tts-core/src/canonical.rs:157-176 | Appends the quoted, escaped string and changes nothing before it. |
| Canonical.WriteValue | crates/study-tts-core/src/canonical.rs:124-155 | Appends exactly the byte form of the value, for every nesting of arrays and objects. |
| Canonical.WriteArray | crates/study-tts-core/src/canonical.rs:131-140 | The loop over elements, with commas between them and none before the first. |
| Canonical.WriteObject | crates/study-tts-core/src/canonical.rs:141-153 | The loop over entries; `Decode.Canonicity` fixes that they stand in ascending key order. |
| Canonical.CanonicalBytes | crates/study-tts-core/src/canonical.rs:112-116 | A fresh buffer ends with exactly the byte form. |
| Decode.ReadStringTail | crates/study-tts-core/src/canonical.rs:157-176 | A reader recovers every string from its escaped form and stops at the closing quote (section 7 of RFC 8259, section 3 of RFC 3629). |
| Decode.RoundTrip | crates/study-tts-core/src/canonical.rs:112-176 | A reader recovers any value, however nested, and what follows it, unless the value is a number and what follows starts with a digit. |
| Decode.ReadValueSound | crates/study-tts-core/src/canonical.rs:112-176 | Whatever the strict reader accepts, in front of any rest, is the canonical bytes of the value it returns. |
| Decode.Canonicity | crates/study-tts-core/src/canonical.rs:112-176 | The strict reader, which refuses leading zeros, long or raw escapes, overlong UTF-8 and keys out of ascending order, takes bytes to a value if and only if they are that value's bytes. |
| Decode.Injective | crates/study-tts-core/src/canonical.rs:112-176 | Equal canonical bytes mean equal values. |
| Identity.SynthesisFieldsAreDistinct | crates/study-tts-core/src/identity.rs:462-523 | No identity field is written twice, so building one never panics. |
| Identity.SynthesisPreimageIsExact | crates/study-tts-core/src/identity.rs:426-523 | Two requests have one key preimage if and only if they agree on every listed input, absent against present conditioning of their own speaker included; nothing else takes part. |
| Identity.SynthesizerUnderItsNames | crates/study-tts-core/src/identity.rs:462-523 | Bundle, model, tokenizer, artifacts and determinism class stand in the key object under their own names and spellings. |
| Identity.SpeechUnderItsNames | crates/study-tts-core/src/identity.rs:462-523 | So do speaker, language, spoken text, style, seed and take; the conditioning is this speaker's, and null when it has none. |
| Identity.FormatUnderItsNames | crates/study-tts-core/src/identity.rs:462-523 | So do the generation parameters, the identity versions and the fixed audio format. |
| Plan.OnlySpeechReachesTheKey | crates/study-tts-core/src/identity.rs:426-438 | Two lesson segments have one key preimage if and only if speaker, spoken text and style agree; display text, id, role, references, pause and review status never matter. |
| Plan.PlanningIsPointwise | crates/study-tts-core/src/plan.rs:502-565 | Planning is refused exactly at the first segment whose speaker is unresolved; otherwise segment i of the plan is the plan of segment i. |
| Plan.PlannedKeys | crates/study-tts-core/src/plan.rs:540-560 | A planned segment carries its lesson segment's fields, its selection's take and audio, and the digests at that take and at the base take. |
| Plan.PlannedHeader | crates/study-tts-core/src/plan.rs:556-565 | A plan carries its lesson's id, its selection's source and the current schema version, and its hash is the one derived from its segments. |
| Plan.KeyForIsPlannedKey | crates/study-tts-core/src/identity.rs:405-415 | The key an executor recomputes for a planned segment is the planned key, and the recomputed plan hash is the recorded one. |
| Plan.VerifyRecordedSelection | crates/study-tts-core/src/plan.rs:588-604 | Passes exactly when base takes have equal keys and retakes different ones; otherwise reports the first segment that disagrees. |
| Plan.PlannedSelectionVerifies | crates/study-tts-core/src/plan.rs:588-604 | A planner-made plan passes that check if and only if no retake's key collides with its base key; no collision on the plan's own preimages suffices. |
| Plan.ResumeReproducesThePlan | crates/study-tts-core/src/plan.rs:681-699 | For a validated lesson, planning again from the recovered selection gives the same plan, hash and selection source included. |
| Plan.PlanPreimageIsExact | crates/study-tts-core/src/plan.rs:789-835 | Equal plan preimages fix every segment up to the base key and the approved audio. |
| Plan.HashedUnderItsNames | crates/study-tts-core/src/plan.rs:789-835 | Each identifying field of a planned segment stands in the hashed object under its own name. |
| Plan.PlanHashFixesBaseKeys | crates/study-tts-core/src/plan.rs:303-315 | Planner-made plans with one hash have equal base keys segment by segment, whatever lesson, context and selection they came from. |
| Plan.WithRetakes | crates/study-tts-core/src/plan.rs:722-760 | Succeeds if and only if every request names a planned segment at a take other than its selected one, with the named takes replaced, their approvals dropped and the source implicit; otherwise reports, in name order, the first request that does not. |
| Plan.RetakeBlastRadius | crates/study-tts-core/src/plan.rs:722-760 | After retakes, planning again changes the take and key of exactly the named segments and clears only their audio; each key really changes; every base key and every other segment stays. |
| Takes.CheckSelection | crates/study-tts-core/src/takes.rs:495-523 | One selection stands or is refused for the first reason, in the order the reasons are tried. |
| Takes.CheckSelections | crates/study-tts-core/src/takes.rs:495-523 | All selections are sound and none repeats a segment, or the first that is not is reported. |
| Takes.Validate | crates/study-tts-core/src/takes.rs:474-523 | Accepts exactly the documents that satisfy every invariant, and otherwise reports the first broken one. |
| Takes.ReconcileWithPlan | crates/study-tts-core/src/takes.rs:582-637 | Accepts exactly when the plan is of this lesson at base takes, and selections and segments match one to one on current base keys; otherwise reports the first mismatch. |
| Takes.ReconcilesExactly | crates/study-tts-core/src/takes.rs:582-637 | Against a lesson's own take-zero plan, a document reconciles if and only if it is of that lesson, every segment is selected on the digest of its speech at the base take, and every selection names a segment. |
| Takes.VerifySelectedKeys | crates/study-tts-core/src/takes.rs:413-452 | Passes exactly when every planned key is the recorded one and every selection is planned; otherwise reports the first that is not. |
| Takes.SelectedPlanExists | crates/study-tts-core/src/plan.rs:646-662 | After both gates, the plan at the recorded takes exists, is of the document's lesson and marked explicit, and describes exactly the selected segments. |
| Takes.SelectedSegment | crates/study-tts-core/src/plan.rs:502-565 | Each of its segments carries the recorded take, audio and base key, and at the base take the recorded key. |
| Takes.TakePipeline | crates/study-tts-core/src/takes.rs:413-452 | Verifying that plan never reports a plan mismatch and can refuse only a retake's key; it passes a segment exactly when the recorded key is the digest of its own take, and then the segment carries the whole approval. |
| Markdown.FirstBlank | crates/study-tts-core/src/markdown.rs:583-598 | The first cell with nothing but white space, if there is one. |
| Markdown.DirectivesAreNamed | crates/study-tts-core/src/markdown.rs:502-515 | A fence is a pronunciation directive if and only if its info string is that word between white space, and otherwise code with its info kept. |
| Text.TrimTakesTheEnds | crates/study-tts-core/src/markdown.rs:662-674 | Trimming takes white space from both ends, nothing else, and leaves none there. |
| Markdown.BlockBuilder.Apply | crates/study-tts-core/src/markdown.rs:390-471 | One event: the new fields and the pushed blocks, or the refusal, are those of the step function. |
| Markdown.BlockBuilder.StartTag | crates/study-tts-core/src/markdown.rs:477-564 | A start tag opens a block, a link, a row or a cell, passes through, or is refused. |
| Markdown.BlockBuilder.EndTag | crates/study-tts-core/src/markdown.rs:567-636 | An end tag closes a block or link, completes a cell, header or row, or refuses an empty cell. |
| Markdown.BlockBuilder.OpenAs | crates/study-tts-core/src/markdown.rs:638-654 | Opens a block only when none is open. |
| Markdown.BlockBuilder.Close | crates/study-tts-core/src/markdown.rs:656-674 | Pushes the open block, trimmed, only at the end it waits for. |
| Markdown.BlockBuilder.AppendTableRow | crates/study-tts-core/src/markdown.rs:676-698 | Appends the row's sentence to the open table, after a space if it already has text. |
| Markdown.CheckRow | crates/study-tts-core/src/markdown.rs:600-612 | Refuses a row at its first paired cell with no value, naming the column. |
| Markdown.OpenBlockPersists | crates/study-tts-core/src/markdown.rs:638-674 | On every stream, an open block keeps its kind, span and awaited end until that end arrives, and outside tables its text grows by exactly the text, code and break events in order. |
| Markdown.ClosesAtFirstEnd | crates/study-tts-core/src/markdown.rs:656-674 | On every stream, the first end equal to the awaited one pushes exactly that block, with the text that came before it. |
| Outline.NodesRead | crates/study-tts-core/src/markdown.rs:390-564 | Inside an open block, nodes at any depth are refused at the first foreign structure, whether its start tag or its event; otherwise they only add their prose to the block or cell and their words to an open link, and emit their code spans and links. |
| Outline.CellsRead | crates/study-tts-core/src/markdown.rs:577-581 | The cells of a row, each with its own span, are collected in order with their own texts. |
| Outline.RowsTell | crates/study-tts-core/src/markdown.rs:676-698 | Streaming the rows gives their sentences joined by one space. |
| Linearization.SentenceOfOne | crates/study-tts-core/src/markdown.rs:686-697 | One column says its name, a colon, its value and a stop. |
| Linearization.SentenceGrows | crates/study-tts-core/src/markdown.rs:686-697 | One more column adds a comma, its name, a colon and its value before the stop. |
| Linearization.SentenceStops | crates/study-tts-core/src/markdown.rs:686-690 | A cell without a name and a name without a cell say nothing. |
| Linearization.GridGrows | crates/study-tts-core/src/markdown.rs:682-697 | One more row adds a space and its sentence to what a table says. |
| Linearization.SentenceIsReadBack | crates/study-tts-core/src/markdown.rs:682-697 | When no name holds a colon and space and no value a comma and space, a reader recovers all names and values from the sentence, in order. |
| Outline.GridReads | crates/study-tts-core/src/markdown.rs:527-636 | A table whose head, rows and cells stand anywhere is refused at its first fault in row-major order, a foreign structure in a cell included; otherwise it is one block whose text is its rows' sentences, which the rows of `Linearization` spell out. |
| Outline.GridRefused | crates/study-tts-core/src/markdown.rs:577-618 | A table of known structures is refused if and only if a column has no name or a paired cell no value. |
| Outline.GridFaultIsFirstGap | crates/study-tts-core/src/markdown.rs:583-612 | The refusal names the first nameless column by its number from one, and otherwise the column of the first missing value in row-major order, at the table's start. |
| Outline.BlockReads | crates/study-tts-core/src/markdown.rs:567-674 | A top-level block is refused at the first foreign structure inside; otherwise it ends with nothing open and emits its code spans and links and then one block with the trimmed prose. |
| Outline.ForeignRefuses | crates/study-tts-core/src/markdown.rs:541-563 | A foreign start tag refuses the document at its start, whatever it holds. |
| Outline.DocumentReads | crates/study-tts-core/src/markdown.rs:390-674 | The fold of a readable document ends with nothing open; it is refused exactly at the document's first fault, foreign start tags, foreign events and empty cells alike, and otherwise emits one block for every top-level block, table, code span and link with the words that belong to it. |
| Outline.ForestRanked | crates/study-tts-core/src/markdown.rs:390-471 | Containers hold only links and code, links hold only code. |
| Nesting.ClosesAtOwnEnd | crates/study-tts-core/src/markdown.rs:656-674 | A block meets its awaited end before its own end if and only if something inside it, at any depth, ends with the same tag. |
| Nesting.ClosesEarly | crates/study-tts-core/src/markdown.rs:656-674 | In that case the block is pushed at the first such end, with only the text before it, and nothing is open although the block has not ended. |
| Conservation.ReceivedWhenHoused | crates/study-tts-core/src/markdown.rs:395-433 | On every stream, tables included, cells and open blocks receive all its letters in order if and only if no word arrives while neither a block nor a cell is open, which the tags alone decide. |
| Conservation.BlocksHoldWhatIsReceived | crates/study-tts-core/src/markdown.rs:390-674 | On every stream without a table, well nested or not, pushed containers and the open block hold exactly the letters received, in order. |
| Conservation.WordsReachBlocks | crates/study-tts-core/src/markdown.rs:401-404 | So they hold all letters of such a stream if and only if no word arrives while no block is open. |
| Conservation.RefusedAtFirstForeign | crates/study-tts-core/src/markdown.rs:390-564 | On every stream without table rows, well nested or not, the fold is refused exactly at the first foreign start tag or event. |
| Conservation.TreesKeepTheirWords | crates/study-tts-core/src/markdown.rs:401-404 | Every tree without a table, whatever holds what, is refused exactly at its first fault; otherwise no letter is lost if and only if no bare words stand outside every open block, an inner end of the awaited tag having closed it. |
| Conservation.InnerIsSheltered | crates/study-tts-core/src/markdown.rs:638-674 | Where no block holds its own tag, no words are outside. |
| Conservation.LooseItemSplits | crates/study-tts-core/src/markdown.rs:656-674 | A list item that goes on with a paragraph after an inner list gives an item with the first part and a separate paragraph with the rest. |
| Conservation.TightItemLosesWords | crates/study-tts-core/src/markdown.rs:656-674 | A list item that goes on with bare words after an inner list that ends with a heading gives an item without them, and no refusal. |
| Numbering.SortIsStable | crates/study-tts-core/src/markdown.rs:320-320 | The sort is a permutation in key order that keeps equal keys in their order. |
| Numbering.StableSortIsUnique | crates/study-tts-core/src/markdown.rs:320-320 | Any two stable sorts give the same sequence, so nothing about the library's sort is assumed beyond its contract. |
| Numbering.PreOrderInOrder | crates/study-tts-core/src/markdown.rs:301-320 | For nested spans, document order is in key order. |
| Numbering.SortedIsPreOrder | crates/study-tts-core/src/markdown.rs:301-320 | Sorting emission order gives document order, every container before what it holds, if and only if no block has the span of a block it holds. |
| Numbering.ReferencesDiffer | crates/study-tts-core/src/markdown.rs:333-335 | Zero-padded references of different positions differ, past the padding too. |
| Numbering.ReferenceReads | crates/study-tts-core/src/markdown.rs:333-335 | A reference is its prefix and the position counted from one, zero-padded to its width and never cut. |
| Compile.ParseSource | crates/study-tts-core/src/markdown.rs:282-325 | Too many blocks if any prefix passes the ceiling, otherwise the fold's refusal, otherwise the fold's blocks sorted and numbered. |
| Compile.ReferencesAreDistinct | crates/study-tts-core/src/markdown.rs:321-335 | No two numbered blocks share a reference. |
| Compile.ParsesInDocumentOrder | crates/study-tts-core/src/markdown.rs:282-325 | A readable document under the ceiling is refused exactly at its first fault; otherwise its blocks are numbered in document order if and only if no block has the span of a block it holds. |
| Compile.LinkOnlyParagraph | crates/study-tts-core/src/markdown.rs:313-320 | A paragraph that is only a link with the same span is numbered after the link. |
| Compile.FirstHeading | crates/study-tts-core/src/markdown.rs:781-785 | The first heading anywhere in the document, if there is one. |
| Compile.CompileLesson | crates/study-tts-core/src/markdown.rs:773-833 | The parse's refusal, or what its blocks compile to with the document's content hash. |
| Selection.ChosenInOrder | crates/study-tts-core/src/markdown.rs:787-790 | Filtering keeps exactly the chosen blocks, at strictly increasing positions. |
| Selection.SortChosen | crates/study-tts-core/src/markdown.rs:787-790 | Sorting and filtering commute. |
| Compile.SegmentsCiteInOrder | crates/study-tts-core/src/markdown.rs:773-812 | Refused exactly for want of a heading or of anything to speak; otherwise segments say every spoken block once, at strictly increasing positions, each citing that block's reference, and the title is the first heading. |
| Compile.SpeechFollowsTheDocument | crates/study-tts-core/src/markdown.rs:773-854 | A document with no fault compiles to segments that say its paragraphs, items, quotations and tables, and only them, in document order, titled by its first heading, even where equal spans number a block after what it holds; it is refused exactly for too many blocks, no heading, or nothing to say, in that order. |
| Compile.RequestReachesTheLesson | crates/study-tts-core/src/markdown.rs:787-833 | Every field the request gives reaches the lesson or each of its segments, every segment is a draft, and the lesson records the document's content hash. |
| Compile.FirstReferences | crates/study-tts-core/src/markdown.rs:327-335 | The first references are `block-001` and `seg-0001`. |
| Compile.DraftIsRefused | crates/study-tts-core/src/markdown.rs:803-806 | The lesson gate never accepts a draft as compiled. |
| Compile.ReviewedDraftAtTheGate | crates/study-tts-core/src/markdown.rs:787-833 | Once approved, a compiled lesson passes the gate if and only if the request's fields and the spoken words are within bounds; its ids, references, schema and provenance never fail. |
| Lesson.CheckSpeakers | crates/study-tts-core/src/lesson.rs:1443-1482 | Passes exactly when every profile is usable; otherwise reports the first speaker in name order that has none. |
| Lesson.CheckDocument | crates/study-tts-core/src/lesson.rs:1443-1482 | Passes exactly when the document's own invariants hold; otherwise reports the first broken one. |
| Lesson.SumLesson | crates/study-tts-core/src/lesson.rs:1408-1439 | The saturating total of the lesson-level strings is the saturated exact sum. |
| AuthoredText.AuthoredBytesAreTheBytesOfAllText | crates/study-tts-core/src/lesson.rs:1408-1439 | The total the gate bounds is the number of bytes in everything the author wrote: title, speakers and profiles, objectives, references, and each segment's id, speaker, texts and references, each once. |
| AuthoredText.PortableIdIsOneComponent | crates/study-tts-core/src/lesson.rs:1848-1855 | An accepted identifier is one visible path component: it holds no separator, colon, space or null, is no dot name, and has at most 64 bytes. |
| Lesson.CheckSegment | crates/study-tts-core/src/lesson.rs:1548-1663 | One segment against the ids and total so far: passes with both extended exactly, or reports the first check that fails. |
| Lesson.CheckSegments | crates/study-tts-core/src/lesson.rs:1408-1439 | Every prefix passes, or the first segment at fault and its first fault. |
| Lesson.FirstFaultIsLeast | crates/study-tts-core/src/lesson.rs:1408-1439 | The index reported is the least whose prefix is not acceptable, and no longer prefix is. |
| Lesson.Validate | crates/study-tts-core/src/lesson.rs:1398-1439 | Accepts exactly the lessons that satisfy every invariant on the exact unbounded byte sum, despite early exits and saturation; otherwise a diagnostic at the first fault. |
| Diagnostics.LocatedPointsAtTheField | crates/study-tts-core/src/lesson.rs:909-1045 | For every refusal, those raised while parsing included, the diagnostic keeps the error and its segment, and its path reads back as exactly the tokens of the offending field, under its segment's index. |
| Diagnostics.SegmentRefusalIsAboutItsField | crates/study-tts-core/src/lesson.rs:989-1045 | Any lesson with the same value at the path a segment's diagnostic points at, and the same of what the invariant compares it with, breaks the same invariant. |
| Diagnostics.DocumentRefusalIsAboutItsField | crates/study-tts-core/src/lesson.rs:989-1045 | The same for a refusal of the document. |
| Schema.OneSpelling | crates/study-tts-core/src/schema.rs:183-206 | A version has exactly one accepted spelling. |
| Schema.ReadsOlderMinors | crates/study-tts-core/src/schema.rs:135-150 | A supported version reads itself and every older minor of its major, each in its one spelling, and nothing else. |
| Schema.RefusedVersions | crates/study-tts-core/src/schema.rs:135-150 | Another major is refused as such, and a newer minor of the same major as such. |
| Schema.LessonSchemaUri | crates/study-tts-core/src/schema.rs:62-71 | The documented link of the lesson schema. |
| Pointer.EscapeConcat | crates/study-tts-core/src/lesson.rs:1303-1305 | Escaping goes character by character: a tilde is `~0`, a slash `~1`, anything else itself. |
| Pointer.EscapeRoundTrip | crates/study-tts-core/src/lesson.rs:1303-1305 | Unescaping undoes escaping for every string, and an escaped token holds no slash (section 4 of RFC 6901). |
| Pointer.PointerRoundTrip | crates/study-tts-core/src/lesson.rs:909-927 | Reading a pointer gives back its tokens, so distinct token lists have distinct pointers (section 3 of RFC 6901). |
| Pointer.SegmentIndexRoundTrip | crates/study-tts-core/src/lesson.rs:1220-1227 | The segment index of any pointer into segment i is i. |
| Language.ParseLanguageTag | crates/study-tts-core/src/language.rs:79-119 | Accepts exactly the tags of the grammar with pairwise distinct variants (section 2.2.5 of RFC 5646) and returns the normalized tag. |
| Language.ParseVariants | crates/study-tts-core/src/language.rs:103-118 | The last loop accepts only variants and refuses a repeated one, whatever its case. |
| Language.CaseDoesNotMatter | crates/study-tts-core/src/language.rs:79-140 | Tags equal but for ASCII case are accepted together and normalize alike. |
| Language.NormalizedIsCanonical | crates/study-tts-core/src/language.rs:79-140 | Normalization keeps length and letters, is a fixed point of parsing, and two tags normalize equally if and only if they match ignoring case (section 2.1.1 of RFC 5646). |
| Grammar.AcceptsTheGrammar | crates/study-tts-core/src/language.rs:79-140 | The parser accepts exactly what the grammar generates within 64 bytes: a language of two to eight letters, then an optional script of four, an optional region of two letters or three digits, and variants of five to eight characters or four led by a digit, none repeated in any case. |
| Grammar.NormalizedIsConventional | crates/study-tts-core/src/language.rs:95-118 | The result writes the language and variants in lower case, the script in title case and the region in upper case, and changes no letter otherwise. |
| Protocol.ReadLine | worker/study_tts_worker/protocol.py:413-440 | One line, or one refusal for an over-long one; either way the stream then stands at the next line. |
| Protocol.DiscardLine | worker/study_tts_worker/protocol.py:443-452 | Drops exactly the rest of the line and counts it; the loop ends. |
| Protocol.ByteStream.Readline | worker/study_tts_worker/protocol.py:413-452 | A single read never holds more than its limit, and takes nothing past a newline. |
| Protocol.ReadAllIsSplitLines | worker/study_tts_worker/protocol.py:413-452 | Reading to the end gives the newline-separated lines in order, each over-long one replaced by exactly one refusal. |
| Protocol.CheckNesting | worker/study_tts_worker/protocol.py:187-205 | The explicit-stack walk refuses exactly the values whose recursive depth, scalars counted, passes the ceiling. |
| Protocol.DepthIsLongestPath | worker/study_tts_worker/protocol.py:187-205 | That depth is one more than the longest way down through list items and dictionary members. |
| Worker.Session.Respond | worker/study_tts_worker/worker.py:895-995 | The answer and the new session state for every frame and every outcome of loading and rendering. |
| Worker.ReportIsExact | worker/study_tts_worker/worker.py:835-870 | Capabilities list exactly the voices the loaded model holds, in order, and the one declared style, and nothing before a model is loaded. |
| Worker.SynthesisSucceedsExactly | worker/study_tts_worker/worker.py:748-821 | A render request succeeds if and only if a model is loaded, its voice and style are in the session's own capabilities, and the render gave frames; the answer carries those frames, and each failure its own code. |
| Worker.InitializesExactly | worker/study_tts_worker/worker.py:902-937 | A session initializes if and only if none was loaded before and both staging root and model are there; the answer names what the session now holds, and any other leaves it as it was. |
| Worker.OtherAnswers | worker/study_tts_worker/worker.py:938-995 | Health tells whether a model is loaded, a cancellation echoes its target, and neither these nor capabilities or shutdown change the session or fail. |
| Worker.RefusedLines | worker/study_tts_worker/worker.py:999-1006 | A line without a frame is refused as invalid under the identity recovered from it, changes nothing and does not stop the loop. |
| Worker.ShutdownIsLast | worker/study_tts_worker/worker.py:1047-1051 | Nothing is sent after a shutdown, and one is sent exactly when a line asks for it. |
| Worker.Serve | worker/study_tts_worker/worker.py:1009-1051 | The loop sends exactly the transcript of the stream's lines. |
| Worker.ServeLine | worker/study_tts_worker/worker.py:1027-1051 | One turn: at most one answer, the session advanced, the stream at the next line. |
| Worker.OneAnswerPerLine | worker/study_tts_worker/worker.py:1027-1051 | Every non-empty line up to shutdown gets exactly one answer, in order, under its own request identity or `unknown`. |
| Worker.StaysConsistent | worker/study_tts_worker/worker.py:296-314 | A backend is held exactly when a staging root is, is never replaced, and appears only with an `initialized` answer. |
| Worker.EveryRunIsSafe | worker/study_tts_worker/worker.py:895-995 | In every run at most one `initialized` is sent, and every successful synthesis follows it and carries its bundle hash, revisions and conditioning entry. |
| Job.OpenAttempt | crates/study-tts-core/src/job.rs:336-371 | A fresh attempt with nothing rendered or claimed, numbered after the one it retains; refused exactly on overflow. |
| Job.Transition | crates/study-tts-core/src/job.rs:386-405 | The moved document, or the refusal of an illegal move or of a private publication. |
| Job.MovesAreTheEdges | crates/study-tts-core/src/job.rs:94-119 | The legal moves are the 22 edges of the documented lifecycle. |
| Job.RefusedMoves | crates/study-tts-core/src/job.rs:386-405 | A move is refused exactly off the edges, or on the last edge for a private preview, each with its own error. |
| Job.HasRenderedMeansReached | crates/study-tts-core/src/job.rs:122-139 | A state counts as rendered if and only if it is reached from `Rendered` without planning again, failing or being cancelled. |
| Job.PreviewLasts | crates/study-tts-core/src/job.rs:398-424 | In every run a preview lasts until another replaces it or the run plans again, which clears it; recording one changes nothing else. |
| Job.RecordsLast | crates/study-tts-core/src/job.rs:408-412 | In every run what a segment resolved to lasts until it is recorded again, and the attempt's own fields never change; recording one segment changes nothing else. |
| Job.ProductionCanPublish | crates/study-tts-core/src/job.rs:94-119 | Every production attempt has a run that is published. |
| Job.EveryAttemptIsSound | crates/study-tts-core/src/job.rs:386-424 | In every document reached from an opened attempt the last success is a success and agrees with the state, a preview is backed by a rendered state, and publication is never reached. |
| Job.MilestonesInOrder | crates/study-tts-core/src/job.rs:94-119 | After its last plan a run has visited the milestones of its state in order. |
| Job.PublishedRunsVisitEveryMilestone | crates/study-tts-core/src/job.rs:94-119 | A published run visited rendering, verifying, verified, assembling and quality-checked in that order after its last plan. |
| Job.RenderedUnlessRenderFailed | crates/study-tts-core/src/job.rs:94-139 | A run past rendering passed through `Rendered` after its last plan if and only if no render failed there. |
| Job.VerifiedWithoutRendered | crates/study-tts-core/src/job.rs:99-112 | A legal run that is verified and was never rendered. |
| Riff.ReadChunk | scripts/qualification/analyze_wav_variation.py:71-79 | The chunk that stands at an offset, or why none does, in the order the walk looks. |
| Riff.LowByteFirst | scripts/qualification/analyze_wav_variation.py:64-74 | Lengths are read least byte first. |
| Riff.ParseRiffChunks | scripts/qualification/analyze_wav_variation.py:59-87 | Accepts exactly the files some chunk list tiles and returns that list's records; otherwise says where and why the walk stops. |
| Riff.TilesExactly | scripts/qualification/analyze_wav_variation.py:71-86 | An accepted file is covered exactly, but for a final pad byte that may be missing after an odd chunk. |
| Riff.TilingIsUnique | scripts/qualification/analyze_wav_variation.py:71-86 | At most one chunk list tiles a file. |
| Riff.WaveFileIsAccepted | scripts/qualification/analyze_wav_variation.py:59-87 | The walk accepts every file laid out from a chunk list, and that list is the only one it can return. |

## Left out

- BLAKE3 and SHA-256: a digest is a parameter, with collision freedom stated on the preimages concerned.
- The Markdown parser library: its events are the input. The tree theorem covers documents in which no top-level block holds its own tag at any depth, no link holds a link, no cell holds a break, no block holds a table, and no top-level quotation carries an alert; the laws of `Conservation.dfy` on refusal and lost words cover every tree and stream without a table, and those of `Markdown.dfy` on open blocks every stream.
- JSON parsing and printing around the documents, and the shape and field checks of `read_request`: frames and documents arrive parsed; a line is read by a parser parameter.
- Loading and rendering audio, staging directories and descriptors: each is one outcome per frame, success or refusal. An exception other than a refusal is not modelled.
- Worker.Session.Respond: does not model the capability fields that are constants or launcher values (languages, ceilings, audio format, seed determinism, device), the channel count of a success, or the wording of failures, because no other field depends on them.
- Markdown.BlockBuilder.Apply: after a refusal the builder's fields are not specified, because the parse loop drops it.
- The block sort is a function on sequences, not in place; the renumbering after it is a loop.
- Refusal wording, and the location of shape errors inside a lesson's JSON text.
- `SpeakerNotChosen`, `SpeakerDeclaredTwice` and `SourceNotUtf8`, which the command line raises before compilation.
- Verification keys, which repeat the synthesis-key argument.
- Releases, rights, contracts, tools, approval records and the command line: records, table lookups and presentation.
- Audio similarity measures and the other qualification scripts.
