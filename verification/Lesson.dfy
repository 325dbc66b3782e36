/**
 Authored lessons and the gate before planning: early-exit loops that carry a set of
 identities and a saturating byte total, against a predicate that has neither.
 */
module Lesson {
  import opened Identity
  import Language
  import opened Pointer
  import opened Schema
  import opened Text
  import opened Wrappers

  const MAX_IDENTIFIER_LENGTH := 64
  const MAX_LESSON_SEGMENTS := 4096
  const MAX_SEGMENT_TEXT_BYTES := 64 * 1024
  const MAX_SOURCE_REFS_PER_SEGMENT := 256
  const MAX_SOURCE_REF_BYTES := 4 * 1024
  const MAX_AUTHORED_TEXT_BYTES: nat := 16 * 1024 * 1024
  const MAX_LEARNING_OBJECTIVES := 64
  const MAX_LEARNING_OBJECTIVE_BYTES := 4 * 1024
  const MAX_LESSON_REFERENCES := 256
  const MAX_LESSON_REFERENCE_BYTES := 4 * 1024
  const MAX_PAUSE_AFTER_MS := 10000
  const MIN_RECALL_RESPONSE_MS := 1500
  const MAX_RECALL_RESPONSE_MS := 4000
  const LESSON_SCHEMA_VERSION := SchemaVersion(3, 1)
  const LESSON_SCHEMA_STEM := "lesson"

  datatype SegmentRole =
    | Problem | Prerequisite | Definition | Explanation | WhyItWorks | Example | Challenge | PlausibleError
    | Interruption | Clarification | Correction | Pseudocode | Synthesis | Recap | CompressedRule
    | RecallPrompt | RecallAnswer

  datatype ReviewStatus = Approved | Draft | NeedsReview

  datatype LessonSegment = LessonSegment(
    id: string,
    speaker: string,
    role: SegmentRole,
    sourceRefs: seq<string>,
    displayText: string,
    spokenText: string,
    style: DeliveryStyle,
    pauseAfterMs: u32,
    reviewStatus: ReviewStatus,
    editorial: bool)
  {
    function Speech(): Identity.Speech {
      Identity.Speech(speaker, spokenText, style)
    }
  }

  datatype LessonSource = LessonSource(contentHash: string, references: seq<string>)

  /** A lesson as written; `speakers` maps each speaker to a voice profile. */
  datatype AuthoredLesson = AuthoredLesson(
    schema: Option<string>,
    schemaVersion: string,
    lessonId: string,
    title: string,
    language: string,
    learningObjectives: seq<string>,
    source: Option<LessonSource>,
    speakers: map<string, string>,
    segments: seq<LessonSegment>)
  {
    function References(): seq<string> {
      if source.Some? then source.value.references else []
    }
  }

  /** A lesson that passed the gate, with what the gate read from it. */
  datatype ValidatedLesson = ValidatedLesson(authored: AuthoredLesson, schemaVersion: SchemaVersion, language: string)

  /** The gate's refusals, and those raised while a lesson is parsed, which point at fields the same way. */
  datatype LessonError =
    | LessonJsonTooLarge(bytes: nat)
    | InvalidJson
    | MalformedSourceContentHash
    | DuplicateSpeaker(speaker: string)
    | UnknownSegmentRole(role: string)
    | MissingSegmentRole
    | UnknownDeliveryStyle(style: string)
    | MissingDeliveryStyle
    | UnknownReviewStatus(status: string)
    | MissingReviewStatus
    | UnsupportedSchema(version: SchemaVersionError)
    | UnexpectedSchemaLink(declared: string, expected: string)
    | MissingLessonId
    | InvalidLessonId(id: string)
    | MalformedLanguage(language: string)
    | TooManyLearningObjectives(found: nat)
    | EmptyLearningObjective
    | LearningObjectiveTooLong(bytes: nat)
    | TooManyLessonReferences(found: nat)
    | EmptyLessonReference
    | LessonReferenceTooLong(bytes: nat)
    | MissingSegments
    | TooManySegments(found: nat)
    | MissingVoiceProfile(speaker: string)
    | InvalidVoiceProfile(speaker: string, voiceProfile: string)
    | MissingSegmentId
    | InvalidSegmentId(id: string)
    | DuplicateSegmentId(id: string)
    | MissingSpokenText(id: string)
    | SpokenTextTooLong(id: string, bytes: nat)
    | MissingDisplayText(id: string)
    | DisplayTextTooLong(id: string, bytes: nat)
    | MissingSourceRefs(id: string)
    | TooManySourceRefs(id: string, found: nat)
    | EmptySourceRef(id: string)
    | SourceRefTooLong(id: string, bytes: nat)
    | UnapprovedSegment(id: string)
    | MissingSpeaker(id: string)
    | UndeclaredSpeaker(id: string, speaker: string)
    | PauseOutOfRange(id: string)
    | RecallPromptWithoutResponseInterval(id: string, pauseAfterMs: nat)
    | RecallPromptResponseIntervalTooLong(id: string, pauseAfterMs: nat)
    | AuthoredTextTooLarge

  /** A name usable as a path component: ASCII, bounded, and not hidden. */
  predicate IsPortableId(value: string) {
    && value != "" && Utf8Len(value) <= MAX_IDENTIFIER_LENGTH && value[0] != '.'
    && forall c :: c in value ==>
         'a' <= c <= 'z' || 'A' <= c <= 'Z' || '0' <= c <= '9' || c == '-' || c == '_' || c == '.'
  }

  function ValidateLessonId(id: string): Option<LessonError> {
    if Blank(id) then Some(MissingLessonId)
    else if !IsPortableId(id) then Some(InvalidLessonId(id))
    else None
  }

  function ValidateSegmentId(id: string): Option<LessonError> {
    if Blank(id) then Some(MissingSegmentId)
    else if !IsPortableId(id) then Some(InvalidSegmentId(id))
    else None
  }

  // ----- the document's own invariants -----

  predicate AnyBlank(items: seq<string>) {
    exists i :: 0 <= i < |items| && Blank(items[i])
  }

  ghost predicate IsFirstTooLong(items: seq<string>, max: nat, i: int) {
    0 <= i < |items| && Utf8Len(items[i]) > max && forall j :: 0 <= j < i ==> Utf8Len(items[j]) <= max
  }

  /** The length of the first item longer than `max` bytes, if there is one. */
  function FirstTooLong(items: seq<string>, max: nat): (n: Option<nat>)
    ensures n.None? <==> forall i :: 0 <= i < |items| ==> Utf8Len(items[i]) <= max
    ensures n.Some? ==> exists i :: IsFirstTooLong(items, max, i) && n.value == Utf8Len(items[i])
  {
    if items == [] then None
    else if Utf8Len(items[0]) > max then Some(Utf8Len(items[0]))
    else
      var n := FirstTooLong(items[1..], max);
      assert n.None? ==> forall i :: 1 <= i < |items| ==> items[i] == items[1..][i - 1];
      assert forall i :: 0 <= i < |items| - 1 ==> items[1..][i] == items[i + 1];
      n
  }

  function CheckProvenance(lesson: AuthoredLesson): Option<LessonError> {
    var objectives, references := lesson.learningObjectives, lesson.References();
    var longObjective := FirstTooLong(objectives, MAX_LEARNING_OBJECTIVE_BYTES);
    var longReference := FirstTooLong(references, MAX_LESSON_REFERENCE_BYTES);
    if |objectives| > MAX_LEARNING_OBJECTIVES then Some(TooManyLearningObjectives(|objectives|))
    else if AnyBlank(objectives) then Some(EmptyLearningObjective)
    else if longObjective.Some? then Some(LearningObjectiveTooLong(longObjective.value))
    else if |references| > MAX_LESSON_REFERENCES then Some(TooManyLessonReferences(|references|))
    else if AnyBlank(references) then Some(EmptyLessonReference)
    else if longReference.Some? then Some(LessonReferenceTooLong(longReference.value))
    else None
  }

  predicate UsableProfile(profile: string) {
    !Blank(profile) && IsPortableId(profile)
  }

  /** `s` is the first speaker, in name order, whose voice profile is unusable. */
  ghost predicate FirstUnusable(speakers: map<string, string>, s: string) {
    && s in speakers && !UsableProfile(speakers[s])
    && forall t :: t in speakers && Less(t, s) ==> UsableProfile(speakers[t])
  }

  function ProfileError(speaker: string, profile: string): LessonError {
    if Blank(profile) then MissingVoiceProfile(speaker) else InvalidVoiceProfile(speaker, profile)
  }

  lemma FirstInOrder(speakers: map<string, string>, names: seq<string>, n: nat)
    requires Ascending(names) && (forall s :: s in names <==> s in speakers) && n < |names|
    requires AllUsable(speakers, names[..n]) && !UsableProfile(speakers[names[n]])
    ensures FirstUnusable(speakers, names[n])
  {
    assert names[n] in names;
    forall t | t in speakers && Less(t, names[n]) ensures UsableProfile(speakers[t]) {
      LessAsymmetric(t, names[n]);
      var k :| 0 <= k < |names| && names[k] == t;
      assert names[..n][k] == t;
    }
  }

  ghost predicate AllUsable(speakers: map<string, string>, names: seq<string>) {
    forall s :: s in names ==> s in speakers && UsableProfile(speakers[s])
  }

  /** The position of the first name whose profile is unusable; their number if there is none. */
  method FirstUnusableName(speakers: map<string, string>, names: seq<string>) returns (n: nat)
    requires forall s :: s in names ==> s in speakers
    ensures n <= |names| && AllUsable(speakers, names[..n])
    ensures n < |names| ==> !UsableProfile(speakers[names[n]])
  {
    n := 0;
    while n < |names| && UsableProfile(speakers[names[n]])
      invariant n <= |names| && AllUsable(speakers, names[..n])
    {
      assert names[..n + 1] == names[..n] + [names[n]];
      n := n + 1;
    }
  }

  method CheckSpeakers(speakers: map<string, string>) returns (fault: Option<LessonError>)
    ensures fault.None? <==> forall s :: s in speakers ==> UsableProfile(speakers[s])
    ensures fault.Some? ==> exists s :: FirstUnusable(speakers, s) && fault.value == ProfileError(s, speakers[s])
  {
    var names := SortedKeys(speakers.Keys);
    var n := FirstUnusableName(speakers, names);
    if n < |names| {
      FirstInOrder(speakers, names, n);
      return Some(ProfileError(names[n], speakers[names[n]]));
    }
    assert names[..n] == names;
    return None;
  }

  /** The version is read, and `link` names its schema. */
  ghost predicate ExpectsLink(lesson: AuthoredLesson, link: string) {
    var version := ReadVersion(lesson.schemaVersion, LESSON_SCHEMA_VERSION);
    version.Success? && link == SchemaUri(LESSON_SCHEMA_STEM, version.value.major)
  }

  ghost predicate LinkMatches(lesson: AuthoredLesson) {
    var version := ReadVersion(lesson.schemaVersion, LESSON_SCHEMA_VERSION);
    lesson.schema.Some? && version.Success? ==> ExpectsLink(lesson, lesson.schema.value)
  }

  /** The document's own invariants among the first `k`, in the order they are checked. */
  ghost predicate DocumentPasses(lesson: AuthoredLesson, k: nat) {
    && (k > 0 ==> ReadVersion(lesson.schemaVersion, LESSON_SCHEMA_VERSION).Success?)
    && (k > 1 ==> LinkMatches(lesson))
    && (k > 2 ==> !Blank(lesson.lessonId) && IsPortableId(lesson.lessonId))
    && (k > 3 ==> Language.Accepted(lesson.language))
    && (k > 4 ==> UsableProvenance(lesson))
    && (k > 5 ==> lesson.segments != [])
    && (k > 6 ==> |lesson.segments| <= MAX_LESSON_SEGMENTS)
    && (k > 7 ==> forall s :: s in lesson.speakers ==> UsableProfile(lesson.speakers[s]))
  }

  /** Everything the document must satisfy apart from its segments. */
  ghost predicate DocumentInvariants(lesson: AuthoredLesson) {
    DocumentPasses(lesson, 8)
  }

  ghost predicate UsableProvenance(lesson: AuthoredLesson) {
    && |lesson.learningObjectives| <= MAX_LEARNING_OBJECTIVES
    && |lesson.References()| <= MAX_LESSON_REFERENCES
    && UsableTexts(lesson.learningObjectives, MAX_LEARNING_OBJECTIVE_BYTES)
    && UsableTexts(lesson.References(), MAX_LESSON_REFERENCE_BYTES)
  }

  ghost predicate UsableTexts(items: seq<string>, max: nat) {
    forall i :: 0 <= i < |items| ==> !Blank(items[i]) && Utf8Len(items[i]) <= max
  }

  /** `e` is about the document, names an invariant it breaks, and describes the break. */
  ghost predicate DocumentBreaks(lesson: AuthoredLesson, e: LessonError) {
    match e
    case UnsupportedSchema(version) => ReadVersion(lesson.schemaVersion, LESSON_SCHEMA_VERSION) == Failure(version)
    case UnexpectedSchemaLink(declared, expected) => lesson.schema == Some(declared) != Some(expected) && ExpectsLink(lesson, expected)
    case MissingLessonId => Blank(lesson.lessonId)
    case InvalidLessonId(id) => id == lesson.lessonId && !IsPortableId(id) && !Blank(id)
    case MalformedLanguage(language) => language == lesson.language && !Language.Accepted(language)
    case MissingSegments => lesson.segments == []
    case TooManySegments(found) => found == |lesson.segments| > MAX_LESSON_SEGMENTS
    case MissingVoiceProfile(s) => FirstUnusable(lesson.speakers, s) && Blank(lesson.speakers[s])
    case InvalidVoiceProfile(s, p) => FirstUnusable(lesson.speakers, s) && lesson.speakers[s] == p && !Blank(p)
    case TooManyLearningObjectives(found) => found == |lesson.learningObjectives| > MAX_LEARNING_OBJECTIVES
    case EmptyLearningObjective => |lesson.learningObjectives| <= MAX_LEARNING_OBJECTIVES && AnyBlank(lesson.learningObjectives)
    case LearningObjectiveTooLong(bytes) =>
      |lesson.learningObjectives| <= MAX_LEARNING_OBJECTIVES && !AnyBlank(lesson.learningObjectives) &&
      FirstTooLong(lesson.learningObjectives, MAX_LEARNING_OBJECTIVE_BYTES) == Some(bytes)
    case TooManyLessonReferences(found) => UsableObjectives(lesson) && found == |lesson.References()| > MAX_LESSON_REFERENCES
    case EmptyLessonReference => UsableObjectives(lesson) && |lesson.References()| <= MAX_LESSON_REFERENCES && AnyBlank(lesson.References())
    case LessonReferenceTooLong(bytes) =>
      UsableObjectives(lesson) && |lesson.References()| <= MAX_LESSON_REFERENCES && !AnyBlank(lesson.References()) &&
      FirstTooLong(lesson.References(), MAX_LESSON_REFERENCE_BYTES) == Some(bytes)
    case _ => false
  }

  ghost predicate UsableObjectives(lesson: AuthoredLesson) {
    |lesson.learningObjectives| <= MAX_LEARNING_OBJECTIVES && UsableTexts(lesson.learningObjectives, MAX_LEARNING_OBJECTIVE_BYTES)
  }

  /** Where in the order of checks a document error is raised. */
  function DocumentCheck(e: LessonError): nat {
    match e
    case UnsupportedSchema(_) => 0
    case UnexpectedSchemaLink(_, _) => 1
    case MissingLessonId | InvalidLessonId(_) => 2
    case MalformedLanguage(_) => 3
    case MissingSegments => 5
    case TooManySegments(_) => 6
    case MissingVoiceProfile(_) | InvalidVoiceProfile(_, _) => 7
    case _ => 4
  }

  /** The version, the schema link and the identity. */
  method CheckHeader(lesson: AuthoredLesson) returns (r: Result<SchemaVersion, LessonError>)
    ensures r.Success? ==> DocumentPasses(lesson, 3) && Success(r.value) == ReadVersion(lesson.schemaVersion, LESSON_SCHEMA_VERSION)
    ensures r.Failure? ==> DocumentBreaks(lesson, r.error) && DocumentPasses(lesson, DocumentCheck(r.error))
    ensures r.Failure? ==> DocumentCheck(r.error) < 3
  {
    var version := ReadVersion(lesson.schemaVersion, LESSON_SCHEMA_VERSION);
    if version.Failure? {
      return Failure(UnsupportedSchema(version.error));
    }
    if lesson.schema.Some? {
      var expected := SchemaUri(LESSON_SCHEMA_STEM, version.value.major);
      if lesson.schema.value != expected {
        return Failure(UnexpectedSchemaLink(lesson.schema.value, expected));
      }
    }
    var badId := ValidateLessonId(lesson.lessonId);
    if badId.Some? {
      return Failure(badId.value);
    }
    return Success(version.value);
  }

  /** The document's invariants, and the first one broken when one is. */
  method CheckDocument(lesson: AuthoredLesson) returns (r: Result<(SchemaVersion, string), LessonError>)
    ensures r.Success? <==> DocumentInvariants(lesson)
    ensures r.Success? ==>
      r.value == (ReadVersion(lesson.schemaVersion, LESSON_SCHEMA_VERSION).value, Language.Normalized(lesson.language))
    ensures r.Failure? ==> DocumentBreaks(lesson, r.error) && DocumentPasses(lesson, DocumentCheck(r.error))
  {
    var version := CheckHeader(lesson);
    if version.Failure? {
      return Failure(version.error);
    }
    var language := Language.ParseLanguageTag(lesson.language);
    if language.None? {
      return Failure(MalformedLanguage(lesson.language));
    }
    var badProvenance := CheckProvenance(lesson);
    ProvenanceIsUsable(lesson);
    if badProvenance.Some? {
      return Failure(badProvenance.value);
    }
    var badExtent := CheckExtent(lesson);
    if badExtent.Some? {
      return Failure(badExtent.value);
    }
    return Success((version.value, language.value));
  }

  /** The number of segments and the speakers' profiles. */
  method CheckExtent(lesson: AuthoredLesson) returns (fault: Option<LessonError>)
    requires DocumentPasses(lesson, 5)
    ensures fault.None? ==> DocumentPasses(lesson, 8)
    ensures fault.Some? ==> DocumentBreaks(lesson, fault.value) && DocumentPasses(lesson, DocumentCheck(fault.value))
    ensures fault.Some? ==> !DocumentPasses(lesson, 8)
  {
    if lesson.segments == [] {
      return Some(MissingSegments);
    }
    if |lesson.segments| > MAX_LESSON_SEGMENTS {
      return Some(TooManySegments(|lesson.segments|));
    }
    fault := CheckSpeakers(lesson.speakers);
  }

  lemma ProvenanceIsUsable(lesson: AuthoredLesson)
    ensures CheckProvenance(lesson).None? <==> UsableProvenance(lesson)
    ensures CheckProvenance(lesson).Some? ==> DocumentCheck(CheckProvenance(lesson).value) == 4
    ensures CheckProvenance(lesson).Some? ==> DocumentBreaks(lesson, CheckProvenance(lesson).value)
  {
  }

  // ----- one segment -----

  /** The segment's own invariants among the first `k`, in the order they are checked. */
  ghost predicate SegmentPasses(lesson: AuthoredLesson, i: nat, k: nat)
    requires i < |lesson.segments|
  {
    var s := lesson.segments[i];
    && (k > 0 ==> !Blank(s.id) && IsPortableId(s.id))
    && (k > 1 ==> forall j :: 0 <= j < i ==> lesson.segments[j].id != s.id)
    && (k > 2 ==> !Blank(s.spokenText))
    && (k > 3 ==> Utf8Len(s.spokenText) <= MAX_SEGMENT_TEXT_BYTES)
    && (k > 4 ==> !Blank(s.displayText))
    && (k > 5 ==> Utf8Len(s.displayText) <= MAX_SEGMENT_TEXT_BYTES)
    && (k > 6 ==> s.sourceRefs != [] || s.editorial)
    && (k > 7 ==> |s.sourceRefs| <= MAX_SOURCE_REFS_PER_SEGMENT)
    && (k > 8 ==> !AnyBlank(s.sourceRefs))
    && (k > 9 ==> forall j :: 0 <= j < |s.sourceRefs| ==> Utf8Len(s.sourceRefs[j]) <= MAX_SOURCE_REF_BYTES)
    && (k > 10 ==> s.reviewStatus.Approved?)
    && (k > 11 ==> !Blank(s.speaker))
    && (k > 12 ==> s.speaker in lesson.speakers)
    && (k > 13 ==> s.pauseAfterMs <= MAX_PAUSE_AFTER_MS)
    && (k > 14 ==> s.role.RecallPrompt? ==> s.pauseAfterMs >= MIN_RECALL_RESPONSE_MS)
    && (k > 15 ==> s.role.RecallPrompt? ==> s.pauseAfterMs <= MAX_RECALL_RESPONSE_MS)
  }

  /** Where in the order of checks a segment error is raised. */
  function SegmentCheck(e: LessonError): nat {
    match e
    case MissingSegmentId | InvalidSegmentId(_) => 0
    case DuplicateSegmentId(_) => 1
    case MissingSpokenText(_) => 2
    case SpokenTextTooLong(_, _) => 3
    case MissingDisplayText(_) => 4
    case DisplayTextTooLong(_, _) => 5
    case MissingSourceRefs(_) => 6
    case TooManySourceRefs(_, _) => 7
    case EmptySourceRef(_) => 8
    case SourceRefTooLong(_, _) => 9
    case UnapprovedSegment(_) => 10
    case MissingSpeaker(_) => 11
    case UndeclaredSpeaker(_, _) => 12
    case PauseOutOfRange(_) => 13
    case RecallPromptWithoutResponseInterval(_, _) => 14
    case RecallPromptResponseIntervalTooLong(_, _) => 15
    case _ => 16
  }

  /** `e` is about segment `i`, names an invariant it breaks, and describes the break. */
  ghost predicate SegmentBreaks(lesson: AuthoredLesson, i: nat, e: LessonError)
    requires i < |lesson.segments|
  {
    var s := lesson.segments[i];
    match e
    case MissingSegmentId => Blank(s.id)
    case InvalidSegmentId(id) => id == s.id && !Blank(id) && !IsPortableId(id)
    case DuplicateSegmentId(id) => id == s.id && exists j :: 0 <= j < i && lesson.segments[j].id == id
    case MissingSpokenText(id) => id == s.id && Blank(s.spokenText)
    case SpokenTextTooLong(id, bytes) => id == s.id && bytes == Utf8Len(s.spokenText) > MAX_SEGMENT_TEXT_BYTES
    case MissingDisplayText(id) => id == s.id && Blank(s.displayText)
    case DisplayTextTooLong(id, bytes) => id == s.id && bytes == Utf8Len(s.displayText) > MAX_SEGMENT_TEXT_BYTES
    case MissingSourceRefs(id) => id == s.id && s.sourceRefs == [] && !s.editorial
    case TooManySourceRefs(id, found) => id == s.id && found == |s.sourceRefs| > MAX_SOURCE_REFS_PER_SEGMENT
    case EmptySourceRef(id) => id == s.id && AnyBlank(s.sourceRefs)
    case SourceRefTooLong(id, bytes) => id == s.id && FirstTooLong(s.sourceRefs, MAX_SOURCE_REF_BYTES) == Some(bytes)
    case UnapprovedSegment(id) => id == s.id && !s.reviewStatus.Approved?
    case MissingSpeaker(id) => id == s.id && Blank(s.speaker)
    case UndeclaredSpeaker(id, speaker) => id == s.id && speaker == s.speaker && speaker !in lesson.speakers
    case PauseOutOfRange(id) => id == s.id && s.pauseAfterMs > MAX_PAUSE_AFTER_MS
    case RecallPromptWithoutResponseInterval(id, ms) =>
      id == s.id && s.role.RecallPrompt? && ms == s.pauseAfterMs < MIN_RECALL_RESPONSE_MS
    case RecallPromptResponseIntervalTooLong(id, ms) =>
      id == s.id && s.role.RecallPrompt? && ms == s.pauseAfterMs > MAX_RECALL_RESPONSE_MS
    case _ => false
  }

  // ----- the authored-text total -----

  /** `usize::saturating_add`. */
  function SaturatingAdd(a: nat, b: nat): nat {
    Saturated(a + b)
  }

  function Saturated(n: nat): nat {
    if n < USIZE_MAX then n else USIZE_MAX
  }

  /** The exact number of bytes in these strings. */
  function TotalBytes(items: seq<string>): nat {
    if items == [] then 0 else TotalBytes(items[..|items| - 1]) + Utf8Len(items[|items| - 1])
  }

  method AddBytes(total: nat, items: seq<string>, ghost exact: nat) returns (r: nat)
    requires total == Saturated(exact)
    ensures r == Saturated(exact + TotalBytes(items))
  {
    r := total;
    for i := 0 to |items|
      invariant r == Saturated(exact + TotalBytes(items[..i]))
    {
      r := SaturatingAdd(r, Utf8Len(items[i]));
      assert items[..i + 1][..i] == items[..i];
    }
    assert items[..|items|] == items;
  }

  /** Each speaker's name and profile, in name order. */
  function SpeakerTexts(speakers: map<string, string>, names: seq<string>): seq<string>
    requires forall n :: n in names ==> n in speakers
  {
    if names == [] then []
    else SpeakerTexts(speakers, names[..|names| - 1]) + [names[|names| - 1], speakers[names[|names| - 1]]]
  }

  function LessonBytes(lesson: AuthoredLesson): nat {
    Utf8Len(lesson.title) + TotalBytes(SpeakerTexts(lesson.speakers, SortedKeys(lesson.speakers.Keys))) +
    TotalBytes(lesson.learningObjectives) + TotalBytes(lesson.References())
  }

  function SegmentBytes(s: LessonSegment): nat {
    Utf8Len(s.id) + Utf8Len(s.speaker) + Utf8Len(s.displayText) + Utf8Len(s.spokenText) + TotalBytes(s.sourceRefs)
  }

  function SegmentSizes(segments: seq<LessonSegment>): seq<nat> {
    seq(|segments|, i requires 0 <= i < |segments| => SegmentBytes(segments[i]))
  }

  /** `base` and the first `n` sizes. */
  function SumThrough(base: nat, sizes: seq<nat>, n: nat): nat
    requires n <= |sizes|
  {
    if n == 0 then base else SumThrough(base, sizes, n - 1) + sizes[n - 1]
  }

  /** The exact authored bytes of the lesson and its first `n` segments. */
  function AuthoredBytes(lesson: AuthoredLesson, n: nat): nat
    requires n <= |lesson.segments|
  {
    SumThrough(LessonBytes(lesson), SegmentSizes(lesson.segments), n)
  }

  /** Checks one segment against the identities and the total of those before it. */
  method CheckSegment(lesson: AuthoredLesson, i: nat, ids: set<string>, total: nat, ghost exact: nat)
    returns (fault: Option<LessonError>, ids': set<string>, total': nat)
    requires i < |lesson.segments|
    requires ids == IdsBefore(lesson, i)
    requires total == Saturated(exact)
    ensures fault.None? ==> SegmentPasses(lesson, i, 16)
    ensures fault.None? ==> ids' == IdsBefore(lesson, i + 1)
    ensures fault.None? ==>
      total' == Saturated(exact + SegmentBytes(lesson.segments[i])) && exact + SegmentBytes(lesson.segments[i]) <= MAX_AUTHORED_TEXT_BYTES
    ensures fault.Some? ==> SegmentPasses(lesson, i, SegmentCheck(fault.value))
    ensures fault.Some? ==> if fault.value.AuthoredTextTooLarge?
      then exact + SegmentBytes(lesson.segments[i]) > MAX_AUTHORED_TEXT_BYTES else SegmentBreaks(lesson, i, fault.value)
  {
    var s := lesson.segments[i];
    ids', total' := ids, total;
    fault := CheckSegmentTexts(lesson, i, ids);
    if fault.Some? {
      return;
    }
    ids' := ids' + {s.id};
    IdsNext(lesson, i);
    fault := CheckSegmentRefs(lesson, i);
    if fault.Some? {
      return;
    }
    fault := CheckSegmentDelivery(lesson, i);
    if fault.Some? {
      return;
    }
    total' := AddSegment(total, s, exact);
    if total' > MAX_AUTHORED_TEXT_BYTES {
      fault := Some(AuthoredTextTooLarge);
    }
  }

  method AddSegment(total: nat, s: LessonSegment, ghost exact: nat) returns (r: nat)
    requires total == Saturated(exact)
    ensures r == Saturated(exact + SegmentBytes(s))
  {
    var fields := [s.id, s.speaker, s.displayText, s.spokenText];
    r := AddBytes(total, fields, exact);
    FourTexts(s.id, s.speaker, s.displayText, s.spokenText);
    r := AddBytes(r, s.sourceRefs, exact + TotalBytes(fields));
  }

  lemma FourTexts(a: string, b: string, c: string, d: string)
    ensures TotalBytes([a, b, c, d]) == Utf8Len(a) + Utf8Len(b) + Utf8Len(c) + Utf8Len(d)
  {
    assert [a][..0] == [] && [a, b][..1] == [a] && [a, b, c][..2] == [a, b] && [a, b, c, d][..3] == [a, b, c];
    assert TotalBytes([a]) == Utf8Len(a);
    assert TotalBytes([a, b]) == TotalBytes([a]) + Utf8Len(b);
    assert TotalBytes([a, b, c]) == TotalBytes([a, b]) + Utf8Len(c);
  }

  ghost function IdsBefore(lesson: AuthoredLesson, n: nat): set<string>
    requires n <= |lesson.segments|
  {
    set j | 0 <= j < n :: lesson.segments[j].id
  }

  lemma IdsNext(lesson: AuthoredLesson, i: nat)
    requires i < |lesson.segments|
    ensures IdsBefore(lesson, i + 1) == IdsBefore(lesson, i) + {lesson.segments[i].id}
  {
  }

  /** The first six checks: identity and texts. */
  method CheckSegmentTexts(lesson: AuthoredLesson, i: nat, ids: set<string>) returns (fault: Option<LessonError>)
    requires i < |lesson.segments| && ids == IdsBefore(lesson, i)
    ensures fault.None? ==> SegmentPasses(lesson, i, 6)
    ensures fault.Some? ==> SegmentPasses(lesson, i, SegmentCheck(fault.value)) && SegmentBreaks(lesson, i, fault.value)
    ensures fault.Some? ==> !fault.value.AuthoredTextTooLarge?
  {
    var s := lesson.segments[i];
    var badId := ValidateSegmentId(s.id);
    if badId.Some? {
      return badId;
    }
    if s.id in ids {
      return Some(DuplicateSegmentId(s.id));
    }
    assert forall j :: 0 <= j < i ==> lesson.segments[j].id in ids;
    if Blank(s.spokenText) {
      return Some(MissingSpokenText(s.id));
    }
    if Utf8Len(s.spokenText) > MAX_SEGMENT_TEXT_BYTES {
      return Some(SpokenTextTooLong(s.id, Utf8Len(s.spokenText)));
    }
    if Blank(s.displayText) {
      return Some(MissingDisplayText(s.id));
    }
    if Utf8Len(s.displayText) > MAX_SEGMENT_TEXT_BYTES {
      return Some(DisplayTextTooLong(s.id, Utf8Len(s.displayText)));
    }
    return None;
  }

  /** The next four checks: references. */
  method CheckSegmentRefs(lesson: AuthoredLesson, i: nat) returns (fault: Option<LessonError>)
    requires i < |lesson.segments| && SegmentPasses(lesson, i, 6)
    ensures fault.None? ==> SegmentPasses(lesson, i, 10)
    ensures fault.Some? ==> SegmentPasses(lesson, i, SegmentCheck(fault.value)) && SegmentBreaks(lesson, i, fault.value)
    ensures fault.Some? ==> !fault.value.AuthoredTextTooLarge?
  {
    var s := lesson.segments[i];
    if s.sourceRefs == [] && !s.editorial {
      return Some(MissingSourceRefs(s.id));
    }
    if |s.sourceRefs| > MAX_SOURCE_REFS_PER_SEGMENT {
      return Some(TooManySourceRefs(s.id, |s.sourceRefs|));
    }
    if AnyBlank(s.sourceRefs) {
      return Some(EmptySourceRef(s.id));
    }
    var long := FirstTooLong(s.sourceRefs, MAX_SOURCE_REF_BYTES);
    if long.Some? {
      return Some(SourceRefTooLong(s.id, long.value));
    }
    return None;
  }

  /** The remaining checks: review, speaker and pause. */
  method CheckSegmentDelivery(lesson: AuthoredLesson, i: nat) returns (fault: Option<LessonError>)
    requires i < |lesson.segments| && SegmentPasses(lesson, i, 10)
    ensures fault.None? ==> SegmentPasses(lesson, i, 16)
    ensures fault.Some? ==> SegmentPasses(lesson, i, SegmentCheck(fault.value)) && SegmentBreaks(lesson, i, fault.value)
    ensures fault.Some? ==> !fault.value.AuthoredTextTooLarge?
  {
    var s := lesson.segments[i];
    if s.reviewStatus != Approved {
      return Some(UnapprovedSegment(s.id));
    }
    if Blank(s.speaker) {
      return Some(MissingSpeaker(s.id));
    }
    if s.speaker !in lesson.speakers {
      return Some(UndeclaredSpeaker(s.id, s.speaker));
    }
    fault := CheckSegmentPause(lesson, i);
  }

  /** The last three checks: pause and recall interval. */
  method CheckSegmentPause(lesson: AuthoredLesson, i: nat) returns (fault: Option<LessonError>)
    requires i < |lesson.segments| && SegmentPasses(lesson, i, 13)
    ensures fault.None? ==> SegmentPasses(lesson, i, 16)
    ensures fault.Some? ==> SegmentPasses(lesson, i, SegmentCheck(fault.value)) && SegmentBreaks(lesson, i, fault.value)
    ensures fault.Some? ==> !fault.value.AuthoredTextTooLarge?
  {
    var s := lesson.segments[i];
    if s.pauseAfterMs > MAX_PAUSE_AFTER_MS {
      return Some(PauseOutOfRange(s.id));
    }
    if s.role == RecallPrompt {
      if s.pauseAfterMs < MIN_RECALL_RESPONSE_MS {
        return Some(RecallPromptWithoutResponseInterval(s.id, s.pauseAfterMs));
      }
      if s.pauseAfterMs > MAX_RECALL_RESPONSE_MS {
        return Some(RecallPromptResponseIntervalTooLong(s.id, s.pauseAfterMs));
      }
    }
    return None;
  }

  // ----- the whole gate -----

  /** A lesson the gate accepts, said without loops, sets or running totals. */
  ghost predicate LessonInvariants(lesson: AuthoredLesson) {
    && DocumentInvariants(lesson)
    && (forall i :: 0 <= i < |lesson.segments| ==> SegmentPasses(lesson, i, 16))
    && AuthoredBytes(lesson, |lesson.segments|) <= MAX_AUTHORED_TEXT_BYTES
  }

  /** The first `n` segments are acceptable as far as they go. */
  ghost predicate PrefixPasses(lesson: AuthoredLesson, n: nat)
    requires n <= |lesson.segments|
  {
    (forall i :: 0 <= i < n ==> SegmentPasses(lesson, i, 16)) && (n > 0 ==> AuthoredBytes(lesson, n) <= MAX_AUTHORED_TEXT_BYTES)
  }

  /** A refusal, and where it is: the segment it happened in, if one, and a pointer to the field. */
  datatype LessonDiagnostic = LessonDiagnostic(segmentId: Option<string>, fieldPath: string, error: LessonError)

  /** The field an error names, relative to its document or segment; none for the whole document. */
  function FieldOf(e: LessonError): Option<string> {
    var field := DocumentField(e);
    if field.Some? then field else SegmentField(e)
  }

  function Nested(outer: string, field: string): string {
    outer + "/" + field
  }

  function DocumentField(e: LessonError): Option<string> {
    match e
    case UnsupportedSchema(_) => Some("schema_version")
    case UnexpectedSchemaLink(_, _) => Some("$schema")
    case MissingLessonId | InvalidLessonId(_) => Some("lesson_id")
    case MalformedLanguage(_) => Some("language")
    case MalformedSourceContentHash => Some(Nested("source", "content_hash"))
    case TooManyLearningObjectives(_) | EmptyLearningObjective | LearningObjectiveTooLong(_) => Some("learning_objectives")
    case TooManyLessonReferences(_) | EmptyLessonReference | LessonReferenceTooLong(_) => Some(Nested("source", "references"))
    case MissingSegments | TooManySegments(_) => Some("segments")
    case MissingVoiceProfile(speaker) => Some(Nested(Nested("speakers", EscapeToken(speaker)), "voice_profile"))
    case InvalidVoiceProfile(speaker, _) => Some(Nested(Nested("speakers", EscapeToken(speaker)), "voice_profile"))
    case DuplicateSpeaker(speaker) => Some(Nested("speakers", EscapeToken(speaker)))
    case _ => None
  }

  function SegmentField(e: LessonError): Option<string> {
    match e
    case MissingSegmentId | InvalidSegmentId(_) | DuplicateSegmentId(_) => Some("id")
    case MissingSpokenText(_) | SpokenTextTooLong(_, _) => Some("spoken_text")
    case MissingDisplayText(_) | DisplayTextTooLong(_, _) => Some("display_text")
    case MissingSourceRefs(_) | TooManySourceRefs(_, _) | EmptySourceRef(_) | SourceRefTooLong(_, _) => Some("source_refs")
    case UnknownSegmentRole(_) | MissingSegmentRole => Some("role")
    case UnknownDeliveryStyle(_) | MissingDeliveryStyle => Some("style")
    case UnknownReviewStatus(_) | MissingReviewStatus | UnapprovedSegment(_) => Some("review_status")
    case MissingSpeaker(_) | UndeclaredSpeaker(_, _) => Some("speaker")
    case PauseOutOfRange(_) | RecallPromptWithoutResponseInterval(_, _) | RecallPromptResponseIntervalTooLong(_, _) =>
      Some("pause_after_ms")
    case _ => None
  }

  /** Composes the pointer for one refusal. */
  function Located(segment: Option<(nat, string)>, e: LessonError): LessonDiagnostic {
    var field := FieldOf(e);
    if field.None? then LessonDiagnostic(None, "", e)
    else if segment.Some? then
      LessonDiagnostic(Some(segment.value.1), SEGMENTS + (Decimal(segment.value.0) + ("/" + field.value)), e)
    else LessonDiagnostic(None, "/" + field.value, e)
  }

  /** `d` refuses the document itself, at the first of its own invariants that is broken. */
  ghost predicate RefusesDocument(lesson: AuthoredLesson, d: LessonDiagnostic) {
    DocumentBreaks(lesson, d.error) && DocumentPasses(lesson, DocumentCheck(d.error)) && d == Located(None, d.error)
  }

  /** Segment `i` is the first whose prefix is not acceptable, and `e` is the first thing wrong there. */
  ghost predicate FirstFault(lesson: AuthoredLesson, i: nat, e: LessonError) {
    && i < |lesson.segments| && PrefixPasses(lesson, i) && SegmentPasses(lesson, i, SegmentCheck(e))
    && (if e.AuthoredTextTooLarge? then AuthoredBytes(lesson, i + 1) > MAX_AUTHORED_TEXT_BYTES
        else SegmentBreaks(lesson, i, e))
  }

  /** `d` refuses at the first segment whose prefix is not acceptable. */
  ghost predicate RefusesSegment(lesson: AuthoredLesson, i: nat, d: LessonDiagnostic) {
    && DocumentInvariants(lesson) && FirstFault(lesson, i, d.error)
    && d == Located(Some((i, lesson.segments[i].id)), d.error)
  }

  lemma BreaksIsNotPassing(lesson: AuthoredLesson, i: nat, e: LessonError)
    requires i < |lesson.segments| && SegmentBreaks(lesson, i, e)
    ensures !SegmentPasses(lesson, i, 16)
  {
  }

  lemma {:induction false} SumGrows(base: nat, sizes: seq<nat>, m: nat, n: nat)
    requires m <= n <= |sizes|
    ensures SumThrough(base, sizes, m) <= SumThrough(base, sizes, n)
  {
    if m < n {
      SumGrows(base, sizes, m, n - 1);
    }
  }

  lemma PrefixShrinks(lesson: AuthoredLesson, m: nat, n: nat)
    requires 0 < m <= n <= |lesson.segments| && PrefixPasses(lesson, n)
    ensures PrefixPasses(lesson, m)
  {
    SumGrows(LessonBytes(lesson), SegmentSizes(lesson.segments), m, n);
  }

  /** The segment at fault is the least whose prefix fails, and no extension repairs it. */
  lemma FirstFaultIsLeast(lesson: AuthoredLesson, i: nat, e: LessonError)
    requires FirstFault(lesson, i, e)
    ensures forall n :: 0 <= n <= |lesson.segments| ==> (PrefixPasses(lesson, n) <==> n <= i)
  {
    assert !PrefixPasses(lesson, i + 1) by {
      if !e.AuthoredTextTooLarge? {
        BreaksIsNotPassing(lesson, i, e);
      }
    }
    forall n | 0 <= n <= |lesson.segments| ensures PrefixPasses(lesson, n) <==> n <= i {
      if 0 < n <= i {
        PrefixShrinks(lesson, n, i);
      } else if i < n && PrefixPasses(lesson, n) {
        PrefixShrinks(lesson, i + 1, n);
      }
    }
  }

  lemma PrefixNext(lesson: AuthoredLesson, i: nat)
    requires i < |lesson.segments| && PrefixPasses(lesson, i) && SegmentPasses(lesson, i, 16)
    requires AuthoredBytes(lesson, i + 1) <= MAX_AUTHORED_TEXT_BYTES
    ensures PrefixPasses(lesson, i + 1)
  {
  }

  /** The lesson-level strings seed the total. */
  method SumLesson(lesson: AuthoredLesson) returns (total: nat)
    ensures total == Saturated(AuthoredBytes(lesson, 0))
  {
    var speakers := SpeakerTexts(lesson.speakers, SortedKeys(lesson.speakers.Keys));
    total := AddThree(Utf8Len(lesson.title), speakers, lesson.learningObjectives, lesson.References());
  }

  method AddThree(first: nat, a: seq<string>, b: seq<string>, c: seq<string>) returns (total: nat)
    ensures total == Saturated(first + TotalBytes(a) + TotalBytes(b) + TotalBytes(c))
  {
    total := AddBytes(Saturated(first), a, first);
    total := AddBytes(total, b, first + TotalBytes(a));
    total := AddBytes(total, c, first + TotalBytes(a) + TotalBytes(b));
  }

  /** What the loop carries past the first `n` segments. */
  ghost predicate Progress(lesson: AuthoredLesson, n: nat, ids: set<string>, total: nat)
    requires n <= |lesson.segments|
  {
    PrefixPasses(lesson, n) && ids == IdsBefore(lesson, n) && total == Saturated(AuthoredBytes(lesson, n))
  }

  /** The loop over segments: nothing, or the first fault. */
  method CheckSegments(lesson: AuthoredLesson) returns (fault: Option<(nat, LessonError)>)
    ensures fault.None? ==> PrefixPasses(lesson, |lesson.segments|)
    ensures fault.Some? ==> FirstFault(lesson, fault.value.0, fault.value.1)
  {
    var ids: set<string> := {};
    var total := SumLesson(lesson);
    for i := 0 to |lesson.segments|
      invariant Progress(lesson, i, ids, total)
    {
      var e, ids', total' := CheckSegment(lesson, i, ids, total, AuthoredBytes(lesson, i));
      if e.Some? {
        return Some((i, e.value));
      }
      PrefixNext(lesson, i);
      ids, total := ids', total';
    }
    return None;
  }

  lemma RefusedAt(lesson: AuthoredLesson, i: nat, e: LessonError)
    requires DocumentInvariants(lesson) && FirstFault(lesson, i, e)
    ensures !LessonInvariants(lesson) && RefusesSegment(lesson, i, Located(Some((i, lesson.segments[i].id)), e))
  {
    FirstFaultIsLeast(lesson, i, e);
    assert !PrefixPasses(lesson, |lesson.segments|);
  }

  /**
   The gate accepts exactly the lessons that satisfy every invariant, early exits and
   saturation notwithstanding, and otherwise says what is first wrong and where.
   */
  method Validate(lesson: AuthoredLesson) returns (r: Result<ValidatedLesson, LessonDiagnostic>)
    ensures r.Success? <==> LessonInvariants(lesson)
    ensures r.Success? ==> r.value == Validated(lesson)
    ensures r.Failure? ==> RefusesDocument(lesson, r.error) || exists i :: RefusesSegment(lesson, i, r.error)
  {
    var document := CheckDocument(lesson);
    if document.Failure? {
      return Failure(Located(None, document.error));
    }
    var fault := CheckSegments(lesson);
    if fault.Some? {
      var (i, e) := fault.value;
      RefusedAt(lesson, i, e);
      return Failure(Located(Some((i, lesson.segments[i].id)), e));
    }
    return Success(ValidatedLesson(lesson, document.value.0, document.value.1));
  }

  ghost function Validated(lesson: AuthoredLesson): ValidatedLesson
    requires DocumentInvariants(lesson)
  {
    ValidatedLesson(lesson, ReadVersion(lesson.schemaVersion, LESSON_SCHEMA_VERSION).value, Language.Normalized(lesson.language))
  }
}
