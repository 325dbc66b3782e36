/**
 Where a refused lesson's diagnostic points: the path of the offending field, and the proof
 that the field at that path is what the refusal is about.
 */
module Diagnostics {
  import opened Lesson
  import opened Pointer
  import opened Schema
  import opened Text
  import opened Wrappers

  // ----- the path of a refusal -----

  /** The offending field within its document or segment; the whole document has no token. */
  function FieldTokens(e: LessonError): seq<string> {
    match e
    case LessonJsonTooLarge(_) | InvalidJson | AuthoredTextTooLarge => []
    case UnsupportedSchema(_) => ["schema_version"]
    case UnexpectedSchemaLink(_, _) => ["$schema"]
    case MissingLessonId | InvalidLessonId(_) => ["lesson_id"]
    case MalformedLanguage(_) => ["language"]
    case MalformedSourceContentHash => ["source", "content_hash"]
    case TooManyLearningObjectives(_) | EmptyLearningObjective | LearningObjectiveTooLong(_) => ["learning_objectives"]
    case TooManyLessonReferences(_) | EmptyLessonReference | LessonReferenceTooLong(_) => ["source", "references"]
    case MissingSegments | TooManySegments(_) => ["segments"]
    case DuplicateSpeaker(speaker) => ["speakers", speaker]
    case MissingVoiceProfile(speaker) => ["speakers", speaker, "voice_profile"]
    case InvalidVoiceProfile(speaker, _) => ["speakers", speaker, "voice_profile"]
    case MissingSegmentId | InvalidSegmentId(_) | DuplicateSegmentId(_) => ["id"]
    case MissingSpokenText(_) | SpokenTextTooLong(_, _) => ["spoken_text"]
    case MissingDisplayText(_) | DisplayTextTooLong(_, _) => ["display_text"]
    case MissingSourceRefs(_) | TooManySourceRefs(_, _) | EmptySourceRef(_) | SourceRefTooLong(_, _) => ["source_refs"]
    case UnknownSegmentRole(_) | MissingSegmentRole => ["role"]
    case UnknownDeliveryStyle(_) | MissingDeliveryStyle => ["style"]
    case UnknownReviewStatus(_) | MissingReviewStatus | UnapprovedSegment(_) => ["review_status"]
    case MissingSpeaker(_) | UndeclaredSpeaker(_, _) => ["speaker"]
    case PauseOutOfRange(_) | RecallPromptWithoutResponseInterval(_, _) | RecallPromptResponseIntervalTooLong(_, _) => ["pause_after_ms"]
  }

  /** The path to the offending field; the empty path is the whole document. */
  function PathTo(segment: Option<nat>, e: LessonError): seq<string> {
    if FieldTokens(e) == [] then []
    else if segment.Some? then [SEGMENT_LIST, Decimal(segment.value)] + FieldTokens(e)
    else FieldTokens(e)
  }

  lemma OneToken(token: string)
    requires NeedsNoEscape(token)
    ensures PointerTo([token]) == "/" + token
  {
    PlainToken(token);
    assert [token][1..] == [];
    assert PointerTo([token]) == "/" + EscapeToken(token) + PointerTo([]);
  }

  lemma PointerAfter(token: string, rest: seq<string>)
    ensures PointerTo([token] + rest) == "/" + EscapeToken(token) + PointerTo(rest)
  {
    assert ([token] + rest)[1..] == rest;
  }

  /** Errors whose field is a single name. */
  predicate PlainField(e: LessonError) {
    match e
    case LessonJsonTooLarge(_) | InvalidJson | AuthoredTextTooLarge => false
    case MalformedSourceContentHash | TooManyLessonReferences(_) | EmptyLessonReference | LessonReferenceTooLong(_) => false
    case MissingVoiceProfile(_) | InvalidVoiceProfile(_, _) | DuplicateSpeaker(_) => false
    case _ => true
  }

  predicate NeedsNoEscape(token: string) {
    '~' !in token && '/' !in token
  }

  lemma DocumentFieldIsPlain(e: LessonError)
    requires PlainField(e)
    ensures DocumentField(e).Some? ==> NeedsNoEscape(DocumentField(e).value)
  {}

  predicate TextField(e: LessonError) {
    e.MissingSpokenText? || e.SpokenTextTooLong? || e.MissingDisplayText? || e.DisplayTextTooLong?
    || e.MissingSourceRefs? || e.TooManySourceRefs? || e.EmptySourceRef? || e.SourceRefTooLong?
  }

  lemma TextFieldIsPlain(e: LessonError)
    requires TextField(e)
    ensures SegmentField(e).Some? && NeedsNoEscape(SegmentField(e).value)
  {}

  lemma SegmentFieldIsPlain(e: LessonError)
    ensures SegmentField(e).Some? ==> NeedsNoEscape(SegmentField(e).value)
  {
    if TextField(e) {
      TextFieldIsPlain(e);
    }
  }

  lemma PlainFieldIsPath(e: LessonError, field: string)
    requires PlainField(e) && FieldOf(e) == Some(field)
    ensures "/" + field == PointerTo(FieldTokens(e))
  {
    DocumentFieldIsPlain(e);
    SegmentFieldIsPlain(e);
    OneToken(field);
    assert FieldTokens(e) == [field];
  }

  lemma FieldIsPath(e: LessonError)
    requires FieldOf(e).Some?
    ensures "/" + FieldOf(e).value == PointerTo(FieldTokens(e))
  {
    if PlainField(e) {
      PlainFieldIsPath(e, FieldOf(e).value);
    } else if e.MissingVoiceProfile? || e.InvalidVoiceProfile? || e.DuplicateSpeaker? {
      SpeakerFieldIsPath(e, FieldOf(e).value, FieldTokens(e));
    } else {
      SourceFieldIsPath(e, FieldOf(e).value, FieldTokens(e));
    }
  }

  lemma SpeakerFieldIsPath(e: LessonError, field: string, tokens: seq<string>)
    requires (e.MissingVoiceProfile? || e.InvalidVoiceProfile? || e.DuplicateSpeaker?) && FieldOf(e) == Some(field) && FieldTokens(e) == tokens
    ensures "/" + field == PointerTo(tokens)
  {
    if e.DuplicateSpeaker? {
      assert tokens == [tokens[0], tokens[1]] && NeedsNoEscape(tokens[0]);
      TwoTokens(tokens[0], tokens[1], field);
    } else {
      assert tokens == [tokens[0], tokens[1], tokens[2]] && NeedsNoEscape(tokens[0]) && NeedsNoEscape(tokens[2]);
      ThreeTokens(tokens[0], tokens[1], tokens[2], field);
    }
  }

  lemma SourceFieldIsPath(e: LessonError, field: string, tokens: seq<string>)
    requires e.MalformedSourceContentHash? || e.TooManyLessonReferences? || e.EmptyLessonReference? || e.LessonReferenceTooLong?
    requires FieldOf(e) == Some(field) && FieldTokens(e) == tokens
    ensures "/" + field == PointerTo(tokens)
  {
    assert tokens == [tokens[0], tokens[1]] && NeedsNoEscape(tokens[0]) && NeedsNoEscape(tokens[1]);
    PlainPair(tokens[0], tokens[1], field);
  }

  lemma PlainPair(a: string, b: string, field: string)
    requires NeedsNoEscape(a) && NeedsNoEscape(b) && field == Nested(a, b)
    ensures "/" + field == PointerTo([a, b])
  {
    PlainToken(b);
    TwoTokens(a, b, field);
  }

  lemma TwoTokens(a: string, b: string, field: string)
    requires NeedsNoEscape(a) && field == Nested(a, EscapeToken(b))
    ensures "/" + field == PointerTo([a, b])
  {
    PlainToken(a);
    PointerAfter(b, []);
    PointerAfter(a, [b]);
    assert [b] + [] == [b] && [a] + [b] == [a, b];
    assert PointerTo([b]) == "/" + EscapeToken(b);
    assert "/" + field == "/" + a + ("/" + EscapeToken(b));
  }

  lemma ThreeTokens(a: string, b: string, c: string, field: string)
    requires NeedsNoEscape(a) && NeedsNoEscape(c) && field == Nested(Nested(a, EscapeToken(b)), c)
    ensures "/" + field == PointerTo([a, b, c])
  {
    PlainToken(a);
    OneToken(c);
    PointerAfter(b, [c]);
    PointerAfter(a, [b] + [c]);
    assert [a] + ([b] + [c]) == [a, b, c];
    var x := EscapeToken(b);
    assert "/" + field == "/" + a + ("/" + x + ("/" + c));
  }

  /** What spells a path after a slash spells it inside a segment too, and reads back as that path. */
  lemma FieldPointer(field: string, tokens: seq<string>, i: nat)
    requires "/" + field == PointerTo(tokens)
    ensures ReadPointer("/" + field) == tokens
    ensures ReadPointer(SEGMENTS + (Decimal(i) + ("/" + field))) == [SEGMENT_LIST, Decimal(i)] + tokens
    ensures i <= USIZE_MAX ==> SegmentIndex(SEGMENTS + (Decimal(i) + ("/" + field))) == Some(i)
  {
    PointerRoundTrip(tokens);
    SegmentPointer(i, tokens);
    PointerRoundTrip([SEGMENT_LIST, Decimal(i)] + tokens);
    if i <= USIZE_MAX {
      SegmentIndexRoundTrip(i, tokens);
    }
  }

  /**
   Every located refusal names its error and its segment, and points, under RFC 6901, at exactly
   the path of the field it is about, whatever its speaker names contain; a refusal in segment
   `i` reads back as being inside segment `i`.
   */
  lemma LocatedPointsAtTheField(segment: Option<(nat, string)>, e: LessonError)
    ensures var d := Located(segment, e);
            var at := if segment.Some? then Some(segment.value.0) else None;
            && d.error == e
            && d.segmentId == (if FieldTokens(e) == [] || segment.None? then None else Some(segment.value.1))
            && ReadPointer(d.fieldPath) == PathTo(at, e)
            && (FieldTokens(e) != [] && segment.Some? && at.value <= USIZE_MAX ==> SegmentIndex(d.fieldPath) == at)
  {
    var field := FieldOf(e);
    NamedFields(e);
    if field.Some? {
      FieldIsPath(e);
      FieldPointer(field.value, FieldTokens(e), if segment.Some? then segment.value.0 else 0);
    }
  }

  lemma NamedFields(e: LessonError)
    ensures FieldOf(e).None? <==> FieldTokens(e) == []
  {
    TokensOfWhole(e);
    FieldsOfWhole(e);
  }

  predicate AboutTheWhole(e: LessonError) {
    e.LessonJsonTooLarge? || e.InvalidJson? || e.AuthoredTextTooLarge?
  }

  lemma FieldsOfWhole(e: LessonError)
    ensures FieldOf(e).None? <==> AboutTheWhole(e)
  {
  }

  lemma TokensOfWhole(e: LessonError)
    ensures FieldTokens(e) == [] <==> AboutTheWhole(e)
  {
  }

  // ----- the field at a path -----

  datatype FieldValue =
    | Whole(lesson: AuthoredLesson)
    | Word(text: string)
    | Words(texts: seq<string>)
    | Linked(schema: Option<string>)
    | Parts(segments: seq<LessonSegment>)
    | Role(role: SegmentRole)
    | Style(style: Identity.DeliveryStyle)
    | Status(status: ReviewStatus)
    | Millis(pause: nat)
    | Absent

  function DocumentMember(lesson: AuthoredLesson, name: string): FieldValue {
    if name == "schema_version" then Word(lesson.schemaVersion)
    else if name == "$schema" then Linked(lesson.schema)
    else if name == "lesson_id" then Word(lesson.lessonId)
    else if name == "title" then Word(lesson.title)
    else if name == "language" then Word(lesson.language)
    else if name == "learning_objectives" then Words(lesson.learningObjectives)
    else if name == "segments" then Parts(lesson.segments)
    else Absent
  }

  function SegmentMember(s: LessonSegment, name: string): FieldValue {
    if name == "id" then Word(s.id)
    else if name == "speaker" then Word(s.speaker)
    else if name == "role" then Role(s.role)
    else if name == "source_refs" then Words(s.sourceRefs)
    else if name == "display_text" then Word(s.displayText)
    else if name == "spoken_text" then Word(s.spokenText)
    else if name == "style" then Style(s.style)
    else if name == "pause_after_ms" then Millis(s.pauseAfterMs)
    else if name == "review_status" then Status(s.reviewStatus)
    else Absent
  }

  /** The value at a path of unescaped tokens, as the lesson's JSON lays it out. */
  function FieldAt(lesson: AuthoredLesson, path: seq<string>): FieldValue {
    if path == [] then Whole(lesson)
    else if |path| == 1 then DocumentMember(lesson, path[0])
    else if |path| == 2 then
      if path[0] == "source" && path[1] == "references" then Words(lesson.References()) else Absent
    else if |path| == 3 && path[0] == SEGMENT_LIST then
      var n := ReadDigits(0, path[1]);
      if 0 <= n < |lesson.segments| then SegmentMember(lesson.segments[n], path[2]) else Absent
    else if |path| == 3 && path[0] == "speakers" && path[2] == "voice_profile" && path[1] in lesson.speakers then
      Word(lesson.speakers[path[1]])
    else Absent
  }

  // ----- the refusal is about the field it points at -----

  predicate AboutIdentity(e: LessonError) {
    e.MissingSegmentId? || e.InvalidSegmentId? || e.DuplicateSegmentId?
  }

  /** Two lessons agree on what a segment's invariant compares the field with, and on the name it is reported under. */
  ghost predicate SameSegmentContext(a: AuthoredLesson, b: AuthoredLesson, i: nat, e: LessonError)
    requires i < |a.segments| && i < |b.segments|
  {
    && (AboutIdentity(e) || a.segments[i].id == b.segments[i].id)
    && (e.DuplicateSegmentId? ==> forall j :: 0 <= j < i ==> a.segments[j].id == b.segments[j].id)
    && (e.MissingSourceRefs? ==> a.segments[i].editorial == b.segments[i].editorial)
    && (e.UndeclaredSpeaker? ==> a.speakers.Keys == b.speakers.Keys)
    && (e.RecallPromptWithoutResponseInterval? || e.RecallPromptResponseIntervalTooLong? ==> a.segments[i].role == b.segments[i].role)
  }

  /** Two lessons agree on what a document's invariant compares the field with. */
  ghost predicate SameDocumentContext(a: AuthoredLesson, b: AuthoredLesson, e: LessonError) {
    && (e.UnexpectedSchemaLink? ==> a.schemaVersion == b.schemaVersion)
    && (e.TooManyLessonReferences? || e.EmptyLessonReference? || e.LessonReferenceTooLong? ==> a.learningObjectives == b.learningObjectives)
    && (e.MissingVoiceProfile? || e.InvalidVoiceProfile? ==> a.speakers - {e.speaker} == b.speakers - {e.speaker})
  }

  /** Where a segment's member agrees, what a refusal says of it stays true. */
  lemma MemberKeepsBreak(a: AuthoredLesson, b: AuthoredLesson, i: nat, e: LessonError, name: string)
    requires i < |a.segments| && i < |b.segments| && SegmentBreaks(a, i, e) && FieldTokens(e) == [name]
    requires SameSegmentContext(a, b, i, e) && SegmentMember(a.segments[i], name) == SegmentMember(b.segments[i], name)
    ensures SegmentBreaks(b, i, e)
  {
    MemberIsField(a.segments[i], b.segments[i], e, name);
  }

  /** The two segments have the same value where the error looks. */
  ghost predicate SameField(s: LessonSegment, t: LessonSegment, e: LessonError) {
    && (AboutIdentity(e) ==> s.id == t.id)
    && (e.MissingSpokenText? || e.SpokenTextTooLong? ==> s.spokenText == t.spokenText)
    && (e.MissingDisplayText? || e.DisplayTextTooLong? ==> s.displayText == t.displayText)
    && (e.MissingSourceRefs? || e.TooManySourceRefs? || e.EmptySourceRef? || e.SourceRefTooLong? ==> s.sourceRefs == t.sourceRefs)
    && (e.UnapprovedSegment? ==> s.reviewStatus == t.reviewStatus)
    && (e.MissingSpeaker? || e.UndeclaredSpeaker? ==> s.speaker == t.speaker)
    && (e.PauseOutOfRange? || e.RecallPromptWithoutResponseInterval? || e.RecallPromptResponseIntervalTooLong? ==>
          s.pauseAfterMs == t.pauseAfterMs)
  }

  lemma MemberIsField(s: LessonSegment, t: LessonSegment, e: LessonError, name: string)
    requires FieldTokens(e) == [name] && SegmentMember(s, name) == SegmentMember(t, name)
    ensures SameField(s, t, e)
  {
    if SpokenField(e) {
      SpokenMemberIsField(s, t, e, name);
    } else if TextField(e) {
      RefsMemberIsField(s, t, e, name);
    } else if AboutIdentity(e) || e.MissingSpeaker? || e.UndeclaredSpeaker? {
      NameMemberIsField(s, t, e, name);
    } else {
      OtherMemberIsField(s, t, e, name);
    }
  }

  predicate SpokenField(e: LessonError) {
    e.MissingSpokenText? || e.SpokenTextTooLong? || e.MissingDisplayText? || e.DisplayTextTooLong?
  }

  lemma SpokenMemberIsField(s: LessonSegment, t: LessonSegment, e: LessonError, name: string)
    requires SpokenField(e) && FieldTokens(e) == [name] && SegmentMember(s, name) == SegmentMember(t, name)
    ensures SameField(s, t, e)
  {
    assert [name][0] == name;
  }

  lemma RefsMemberIsField(s: LessonSegment, t: LessonSegment, e: LessonError, name: string)
    requires TextField(e) && !SpokenField(e) && FieldTokens(e) == [name] && SegmentMember(s, name) == SegmentMember(t, name)
    ensures SameField(s, t, e)
  {
    assert [name][0] == name;
  }

  lemma NameMemberIsField(s: LessonSegment, t: LessonSegment, e: LessonError, name: string)
    requires AboutIdentity(e) || e.MissingSpeaker? || e.UndeclaredSpeaker?
    requires FieldTokens(e) == [name] && SegmentMember(s, name) == SegmentMember(t, name)
    ensures SameField(s, t, e)
  {
    assert [name][0] == name;
  }

  lemma OtherMemberIsField(s: LessonSegment, t: LessonSegment, e: LessonError, name: string)
    requires !TextField(e) && !AboutIdentity(e) && !e.MissingSpeaker? && !e.UndeclaredSpeaker?
    requires FieldTokens(e) == [name] && SegmentMember(s, name) == SegmentMember(t, name)
    ensures SameField(s, t, e)
  {
    assert [name][0] == name;
  }

  /**
   A segment's refusal is about the field its diagnostic points at: any lesson with the same
   value there, and the same of what it is compared with, is refused for the same reason.
   */
  lemma SegmentRefusalIsAboutItsField(a: AuthoredLesson, b: AuthoredLesson, i: nat, e: LessonError)
    requires i < |a.segments| && i < |b.segments| && SegmentBreaks(a, i, e) && SameSegmentContext(a, b, i, e)
    requires var path := ReadPointer(Located(Some((i, a.segments[i].id)), e).fieldPath);
             FieldAt(a, path) == FieldAt(b, path)
    ensures SegmentBreaks(b, i, e)
  {
    LocatedPointsAtTheField(Some((i, a.segments[i].id)), e);
    var name := SegmentToken(a, i, e);
    var path := [SEGMENT_LIST, Decimal(i), name];
    assert [SEGMENT_LIST, Decimal(i)] + [name] == path;
    SegmentFieldAt(a, i, name);
    SegmentFieldAt(b, i, name);
    MemberKeepsBreak(a, b, i, e, name);
  }

  lemma SegmentToken(a: AuthoredLesson, i: nat, e: LessonError) returns (name: string)
    requires i < |a.segments| && SegmentBreaks(a, i, e)
    ensures FieldTokens(e) == [name]
  {
    name := FieldTokens(e)[0];
  }

  lemma SegmentFieldAt(lesson: AuthoredLesson, i: nat, name: string)
    requires i < |lesson.segments|
    ensures FieldAt(lesson, [SEGMENT_LIST, Decimal(i), name]) == SegmentMember(lesson.segments[i], name)
  {
    ReadDecimal(i, "");
    assert Decimal(i) + "" == Decimal(i);
  }

  /** The same for a refusal of the document itself. */
  lemma DocumentRefusalIsAboutItsField(a: AuthoredLesson, b: AuthoredLesson, e: LessonError)
    requires DocumentBreaks(a, e) && SameDocumentContext(a, b, e)
    requires var path := ReadPointer(Located(None, e).fieldPath);
             FieldAt(a, path) == FieldAt(b, path)
    ensures DocumentBreaks(b, e)
  {
    LocatedPointsAtTheField(None, e);
    if e.MissingVoiceProfile? || e.InvalidVoiceProfile? {
      ProfileKeepsBreak(a, b, e, e.speaker);
    } else if e.TooManyLessonReferences? || e.EmptyLessonReference? || e.LessonReferenceTooLong? {
      ReferencesKeepBreak(a, b, e);
    } else {
      DocumentMemberKeepsBreak(a, b, e);
    }
  }

  lemma ProfileKeepsBreak(a: AuthoredLesson, b: AuthoredLesson, e: LessonError, speaker: string)
    requires (e.MissingVoiceProfile? || e.InvalidVoiceProfile?) && e.speaker == speaker && DocumentBreaks(a, e)
    requires a.speakers - {speaker} == b.speakers - {speaker}
    requires FieldAt(a, ["speakers", speaker, "voice_profile"]) == FieldAt(b, ["speakers", speaker, "voice_profile"])
    ensures DocumentBreaks(b, e)
  {
    assert speaker in a.speakers && FieldAt(a, ["speakers", speaker, "voice_profile"]) == Word(a.speakers[speaker]);
    assert speaker in b.speakers && b.speakers[speaker] == a.speakers[speaker];
    forall t | t in b.speakers && Less(t, speaker) ensures UsableProfile(b.speakers[t]) {
      LessAsymmetric(t, speaker);
      assert t in (b.speakers - {speaker});
      assert t in (a.speakers - {speaker});
      assert a.speakers[t] == b.speakers[t];
    }
  }

  lemma ReferencesKeepBreak(a: AuthoredLesson, b: AuthoredLesson, e: LessonError)
    requires (e.TooManyLessonReferences? || e.EmptyLessonReference? || e.LessonReferenceTooLong?) && DocumentBreaks(a, e)
    requires a.learningObjectives == b.learningObjectives
    requires FieldAt(a, ["source", "references"]) == FieldAt(b, ["source", "references"])
    ensures DocumentBreaks(b, e)
  {
    assert FieldAt(a, ["source", "references"]) == Words(a.References());
    assert FieldAt(b, ["source", "references"]) == Words(b.References());
  }

  lemma DocumentMemberKeepsBreak(a: AuthoredLesson, b: AuthoredLesson, e: LessonError)
    requires DocumentBreaks(a, e) && SameDocumentContext(a, b, e)
    requires !(e.MissingVoiceProfile? || e.InvalidVoiceProfile?)
    requires !(e.TooManyLessonReferences? || e.EmptyLessonReference? || e.LessonReferenceTooLong?)
    requires FieldAt(a, FieldTokens(e)) == FieldAt(b, FieldTokens(e))
    ensures DocumentBreaks(b, e)
  {
  }
}
