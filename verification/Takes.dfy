/**
 Recorded take selections: what holds of a document on its own, against the plan it was
 recorded for, and against the plan derived at its takes.
 */
module Takes {
  import opened Identity
  import Lesson
  import opened Plan
  import opened Schema
  import opened Text
  import opened Wrappers

  const TAKES_SCHEMA_VERSION := SchemaVersion(1, 0)
  const TAKES_SCHEMA_STEM := "takes"

  datatype SelectedTake = SelectedTake(
    segmentId: string,
    synthesisBaseKey: string,
    selectedTake: u32,
    selectedCacheKey: string,
    audioDigest: string)

  datatype TakesDocument = TakesDocument(
    schema: Option<string>,
    schemaVersion: string,
    lessonId: string,
    selections: seq<SelectedTake>)

  datatype ValidatedTakes = ValidatedTakes(authored: TakesDocument, schemaVersion: SchemaVersion)

  datatype TakesError =
    | UnsupportedSchema(version: SchemaVersionError)
    | UnexpectedSchemaLink(declared: string, expected: string)
    | InvalidLessonId(lesson: Lesson.LessonError)
    | InvalidSegmentId(segment: Lesson.LessonError)
    | MissingSelections
    | TooManySelections(found: nat)
    | DuplicateSelection(segmentId: string)
    | BaseTakeKeyMismatch(segmentId: string)
    | RetakeUsesBaseKey(segmentId: string, selectedTake: u32)
    | LessonMismatch(recorded: string, plan: string)
    | PlanIsNotBaseTakes(segmentId: string, take: u32)
    | UnselectedSegment(segmentId: string)
    | UnplannedSelection(segmentId: string)
    | StaleSynthesisBaseKey(segmentId: string, recorded: string, derived: string)
    | SelectedCacheKeyMismatch(segmentId: string, selectedTake: u32, recorded: string, derived: string)
    | SelectedPlanMismatch(segmentId: string)

  /** The takes a reconciled document selects, by segment. */
  datatype AppliedSelection = AppliedSelection(selected: map<string, SelectedTake>)

  // ----- on its own -----

  /** A selection that could be one segment's approval: a usable name, and keys that agree with its take. */
  ghost predicate SoundSelection(s: SelectedTake) {
    && !Blank(s.segmentId) && Lesson.IsPortableId(s.segmentId)
    && (s.selectedTake == BASE_TAKE <==> s.selectedCacheKey == s.synthesisBaseKey)
  }

  ghost predicate SelectedOnce(selections: seq<SelectedTake>) {
    forall i, j :: 0 <= i < j < |selections| ==> selections[i].segmentId != selections[j].segmentId
  }

  ghost predicate TakesInvariants(d: TakesDocument) {
    var version := ReadVersion(d.schemaVersion, TAKES_SCHEMA_VERSION);
    && version.Success?
    && (d.schema.Some? ==> d.schema.value == SchemaUri(TAKES_SCHEMA_STEM, version.value.major))
    && !Blank(d.lessonId) && Lesson.IsPortableId(d.lessonId)
    && 0 < |d.selections| <= Lesson.MAX_LESSON_SEGMENTS
    && (forall i :: 0 <= i < |d.selections| ==> SoundSelection(d.selections[i]))
    && SelectedOnce(d.selections)
  }

  /** Selection `i` is the first that cannot stand, and `e` says why. */
  ghost predicate FirstUnsound(selections: seq<SelectedTake>, i: int, e: TakesError) {
    && 0 <= i < |selections|
    && (forall j :: 0 <= j < i ==> SoundSelection(selections[j]))
    && SelectedOnce(selections[..i])
    && Unsound(selections[i], exists j :: 0 <= j < i && selections[j].segmentId == selections[i].segmentId, e)
  }

  /** `e` is the first reason a selection cannot stand, `repeated` saying whether its segment came before. */
  ghost predicate Unsound(s: SelectedTake, repeated: bool, e: TakesError) {
    var invalid := Lesson.ValidateSegmentId(s.segmentId);
    if invalid.Some? then e == InvalidSegmentId(invalid.value)
    else if repeated then e == DuplicateSelection(s.segmentId)
    else !SoundSelection(s) && e == (if s.selectedTake == BASE_TAKE then TakesError.BaseTakeKeyMismatch(s.segmentId)
                                     else TakesError.RetakeUsesBaseKey(s.segmentId, s.selectedTake))
  }

  /** The body of the loop: one selection, against the segments selected before it. */
  method CheckSelection(s: SelectedTake, segments: set<string>) returns (fault: Option<TakesError>)
    ensures fault.None? ==> SoundSelection(s) && s.segmentId !in segments
    ensures fault.Some? ==> Unsound(s, s.segmentId in segments, fault.value)
  {
    var invalid := Lesson.ValidateSegmentId(s.segmentId);
    if invalid.Some? {
      return Some(InvalidSegmentId(invalid.value));
    }
    if s.segmentId in segments {
      return Some(DuplicateSelection(s.segmentId));
    }
    var keysMatch := s.selectedCacheKey == s.synthesisBaseKey;
    if s.selectedTake == BASE_TAKE && !keysMatch {
      return Some(TakesError.BaseTakeKeyMismatch(s.segmentId));
    }
    if s.selectedTake != BASE_TAKE && keysMatch {
      return Some(TakesError.RetakeUsesBaseKey(s.segmentId, s.selectedTake));
    }
    return None;
  }

  /** The loop of `validate`: every selection is sound and none is repeated. */
  method CheckSelections(selections: seq<SelectedTake>) returns (fault: Option<TakesError>)
    ensures fault.None? ==> (forall i :: 0 <= i < |selections| ==> SoundSelection(selections[i])) && SelectedOnce(selections)
    ensures fault.Some? ==> exists i :: FirstUnsound(selections, i, fault.value)
  {
    var segments: set<string> := {};
    for i := 0 to |selections|
      invariant SoundBefore(selections, i, segments)
    {
      fault := CheckSelection(selections[i], segments);
      if fault.Some? {
        UnsoundHere(selections, i, segments, fault.value);
        return;
      }
      SoundNext(selections, i, segments);
      segments := segments + {selections[i].segmentId};
    }
    assert selections[..|selections|] == selections;
    return None;
  }

  /** What the loop knows past the first `n` selections. */
  ghost predicate SoundBefore(selections: seq<SelectedTake>, n: nat, segments: set<string>)
    requires n <= |selections|
  {
    && (forall j :: 0 <= j < n ==> SoundSelection(selections[j]))
    && SelectedOnce(selections[..n])
    && (forall id :: id in segments <==> exists j :: 0 <= j < n && selections[j].segmentId == id)
  }

  lemma SoundNext(selections: seq<SelectedTake>, i: nat, segments: set<string>)
    requires i < |selections| && SoundBefore(selections, i, segments)
    requires SoundSelection(selections[i]) && selections[i].segmentId !in segments
    ensures SoundBefore(selections, i + 1, segments + {selections[i].segmentId})
  {
    SelectedOnceNext(selections, i);
    forall id ensures id in segments + {selections[i].segmentId} <==> exists j :: 0 <= j < i + 1 && selections[j].segmentId == id {
      if id in segments {
        var j :| 0 <= j < i && selections[j].segmentId == id;
      }
    }
  }

  lemma UnsoundHere(selections: seq<SelectedTake>, i: nat, segments: set<string>, e: TakesError)
    requires i < |selections| && SoundBefore(selections, i, segments)
    requires Unsound(selections[i], selections[i].segmentId in segments, e)
    ensures FirstUnsound(selections, i, e)
  {
  }

  lemma SelectedOnceNext(selections: seq<SelectedTake>, i: nat)
    requires i < |selections| && SelectedOnce(selections[..i])
    requires forall j :: 0 <= j < i ==> selections[j].segmentId != selections[i].segmentId
    ensures SelectedOnce(selections[..i + 1])
  {
    forall j, k | 0 <= j < k < i + 1 ensures selections[j].segmentId != selections[k].segmentId {
      if k < i { assert selections[..i][j].segmentId != selections[..i][k].segmentId; }
    }
  }

  lemma UnsoundIsRefused(selections: seq<SelectedTake>, i: int, e: TakesError)
    requires FirstUnsound(selections, i, e)
    ensures !((forall j :: 0 <= j < |selections| ==> SoundSelection(selections[j])) && SelectedOnce(selections))
  {
  }

  method Validate(d: TakesDocument) returns (r: Result<ValidatedTakes, TakesError>)
    ensures r.Success? <==> TakesInvariants(d)
    ensures r.Success? ==> r.value.authored == d && Success(r.value.schemaVersion) == ReadVersion(d.schemaVersion, TAKES_SCHEMA_VERSION)
    ensures r.Failure? ==> RefusesHeader(d, r.error) || exists i :: FirstUnsound(d.selections, i, r.error)
  {
    var version := ReadVersion(d.schemaVersion, TAKES_SCHEMA_VERSION);
    if version.Failure? {
      return Failure(UnsupportedSchema(version.error));
    }
    if d.schema.Some? {
      var expected := SchemaUri(TAKES_SCHEMA_STEM, version.value.major);
      if d.schema.value != expected {
        return Failure(UnexpectedSchemaLink(d.schema.value, expected));
      }
    }
    var badId := Lesson.ValidateLessonId(d.lessonId);
    if badId.Some? {
      return Failure(InvalidLessonId(badId.value));
    }
    if d.selections == [] {
      return Failure(MissingSelections);
    }
    if |d.selections| > Lesson.MAX_LESSON_SEGMENTS {
      return Failure(TooManySelections(|d.selections|));
    }
    var fault := CheckSelections(d.selections);
    if fault.Some? {
      ghost var i :| FirstUnsound(d.selections, i, fault.value);
      UnsoundIsRefused(d.selections, i, fault.value);
      return Failure(fault.value);
    }
    return Success(ValidatedTakes(d, version.value));
  }

  /** The first `k` of the document's own checks pass, in the order they are made. */
  ghost predicate HeaderPasses(d: TakesDocument, k: nat) {
    var version := ReadVersion(d.schemaVersion, TAKES_SCHEMA_VERSION);
    && (k > 0 ==> version.Success?)
    && (k > 1 && version.Success? && d.schema.Some? ==> d.schema.value == SchemaUri(TAKES_SCHEMA_STEM, version.value.major))
    && (k > 2 ==> Lesson.ValidateLessonId(d.lessonId).None?)
    && (k > 3 ==> d.selections != [])
    && (k > 4 ==> |d.selections| <= Lesson.MAX_LESSON_SEGMENTS)
  }

  /** What is first wrong with the document apart from its selections. */
  ghost predicate RefusesHeader(d: TakesDocument, e: TakesError) {
    var version := ReadVersion(d.schemaVersion, TAKES_SCHEMA_VERSION);
    match e
    case UnsupportedSchema(v) => version == Failure(v)
    case UnexpectedSchemaLink(declared, expected) =>
      HeaderPasses(d, 1) && d.schema == Some(declared) && declared != expected == SchemaUri(TAKES_SCHEMA_STEM, version.value.major)
    case InvalidLessonId(lesson) => HeaderPasses(d, 2) && Lesson.ValidateLessonId(d.lessonId) == Some(lesson)
    case MissingSelections => HeaderPasses(d, 3) && d.selections == []
    case TooManySelections(found) => HeaderPasses(d, 4) && found == |d.selections| > Lesson.MAX_LESSON_SEGMENTS
    case _ => false
  }

  // ----- against the plan it was recorded for -----

  /** The selections by segment; a later one of the same name would win. */
  function SelectedMap(selections: seq<SelectedTake>): map<string, SelectedTake> {
    if selections == [] then map[]
    else
      var last := selections[|selections| - 1];
      SelectedMap(selections[..|selections| - 1])[last.segmentId := last]
  }

  lemma {:induction false} SelectedMapAt(selections: seq<SelectedTake>)
    requires SelectedOnce(selections)
    ensures forall i :: 0 <= i < |selections| ==>
      selections[i].segmentId in SelectedMap(selections) && SelectedMap(selections)[selections[i].segmentId] == selections[i]
    ensures forall id :: id in SelectedMap(selections) ==> SelectedMap(selections)[id] in selections && SelectedMap(selections)[id].segmentId == id
  {
    if selections != [] {
      SelectedMapAt(selections[..|selections| - 1]);
    }
  }

  /** The segment's selection exists and was recorded against this segment's key. */
  ghost predicate Current(selected: map<string, SelectedTake>, s: PlannedSegment) {
    s.id in selected && selected[s.id].synthesisBaseKey == s.cacheKey
  }

  ghost predicate AllCurrent(selected: map<string, SelectedTake>, base: RenderPlan) {
    forall i :: 0 <= i < |base.segments| ==> Current(selected, base.segments[i])
  }

  ghost predicate AllPlanned(selected: map<string, SelectedTake>, plan: RenderPlan) {
    forall id :: id in selected ==> IsPlanned(plan, id)
  }

  ghost predicate AtBaseTakes(plan: RenderPlan) {
    forall i :: 0 <= i < |plan.segments| ==> plan.segments[i].take == BASE_TAKE
  }

  ghost predicate Reconciles(d: TakesDocument, base: RenderPlan) {
    && d.lessonId == base.lessonId && AtBaseTakes(base)
    && AllCurrent(SelectedMap(d.selections), base) && AllPlanned(SelectedMap(d.selections), base)
  }

  /** The first name, in order, that is selected and not planned. */
  ghost predicate FirstUnplanned(selected: map<string, SelectedTake>, plan: RenderPlan, id: string) {
    && id in selected && !IsPlanned(plan, id)
    && forall o :: o in selected && Less(o, id) ==> IsPlanned(plan, o)
  }

  ghost predicate PlannedIds(plan: RenderPlan, ids: seq<string>) {
    forall id :: id in ids ==> IsPlanned(plan, id)
  }

  /** The position of the first name no segment has; their number if there is none. */
  method FirstUnplannedName(plan: RenderPlan, ids: seq<string>) returns (n: nat)
    ensures n <= |ids| && PlannedIds(plan, ids[..n])
    ensures n < |ids| ==> !IsPlanned(plan, ids[n])
  {
    n := 0;
    while n < |ids| && IsPlanned(plan, ids[n])
      invariant n <= |ids| && PlannedIds(plan, ids[..n])
    {
      assert ids[..n + 1] == ids[..n] + [ids[n]];
      n := n + 1;
    }
  }

  lemma FirstUnplannedAt(selected: map<string, SelectedTake>, plan: RenderPlan, ids: seq<string>, n: nat)
    requires Ascending(ids) && (forall id :: id in ids <==> id in selected) && n < |ids|
    requires PlannedIds(plan, ids[..n]) && !IsPlanned(plan, ids[n])
    ensures FirstUnplanned(selected, plan, ids[n])
  {
    assert ids[n] in ids;
    forall o | o in selected && Less(o, ids[n]) ensures IsPlanned(plan, o) {
      LessAsymmetric(o, ids[n]);
      var k :| 0 <= k < |ids| && ids[k] == o;
      assert ids[..n][k] == o;
    }
  }

  method CheckAllPlanned(selected: map<string, SelectedTake>, plan: RenderPlan) returns (unplanned: Option<string>)
    ensures unplanned.None? <==> AllPlanned(selected, plan)
    ensures unplanned.Some? ==> FirstUnplanned(selected, plan, unplanned.value)
  {
    var ids := SortedKeys(selected.Keys);
    var n := FirstUnplannedName(plan, ids);
    if n < |ids| {
      FirstUnplannedAt(selected, plan, ids, n);
      return Some(ids[n]);
    }
    assert ids[..n] == ids;
    return None;
  }

  method ReconcileWithPlan(takes: ValidatedTakes, base: RenderPlan) returns (r: Result<AppliedSelection, TakesError>)
    ensures r.Success? <==> Reconciles(takes.authored, base)
    ensures r.Success? ==> r.value == AppliedSelection(SelectedMap(takes.authored.selections))
    ensures r.Failure? ==> RefusesPlan(takes.authored, base, r.error)
  {
    var d := takes.authored;
    if d.lessonId != base.lessonId {
      return Failure(LessonMismatch(d.lessonId, base.lessonId));
    }
    for i := 0 to |base.segments|
      invariant forall j :: 0 <= j < i ==> base.segments[j].take == BASE_TAKE
    {
      if base.segments[i].take != BASE_TAKE {
        assert FirstNonBase(base, i);
        return Failure(PlanIsNotBaseTakes(base.segments[i].id, base.segments[i].take));
      }
    }
    var selected := SelectedMap(d.selections);
    for i := 0 to |base.segments|
      invariant forall j :: 0 <= j < i ==> Current(selected, base.segments[j])
    {
      var s := base.segments[i];
      if s.id !in selected {
        assert FirstNotCurrent(selected, base, i);
        return Failure(UnselectedSegment(s.id));
      }
      if selected[s.id].synthesisBaseKey != s.cacheKey {
        assert FirstNotCurrent(selected, base, i);
        return Failure(StaleSynthesisBaseKey(s.id, selected[s.id].synthesisBaseKey, s.cacheKey));
      }
    }
    var unplanned := CheckAllPlanned(selected, base);
    if unplanned.Some? {
      return Failure(UnplannedSelection(unplanned.value));
    }
    return Success(AppliedSelection(selected));
  }

  ghost predicate FirstNonBase(base: RenderPlan, i: int) {
    0 <= i < |base.segments| && base.segments[i].take != BASE_TAKE && forall j :: 0 <= j < i ==> base.segments[j].take == BASE_TAKE
  }

  ghost predicate FirstNotCurrent(selected: map<string, SelectedTake>, base: RenderPlan, i: int) {
    0 <= i < |base.segments| && !Current(selected, base.segments[i]) && forall j :: 0 <= j < i ==> Current(selected, base.segments[j])
  }

  /** `e` is the first reason the document does not reconcile, in the order the reasons are sought. */
  ghost predicate RefusesPlan(d: TakesDocument, base: RenderPlan, e: TakesError) {
    var selected := SelectedMap(d.selections);
    match e
    case LessonMismatch(recorded, plan) => recorded == d.lessonId != base.lessonId == plan
    case PlanIsNotBaseTakes(id, take) =>
      d.lessonId == base.lessonId && exists i :: FirstNonBase(base, i) && (id, take) == (base.segments[i].id, base.segments[i].take)
    case UnselectedSegment(id) =>
      d.lessonId == base.lessonId && AtBaseTakes(base) && id !in selected &&
      exists i :: FirstNotCurrent(selected, base, i) && id == base.segments[i].id
    case StaleSynthesisBaseKey(id, recorded, derived) =>
      d.lessonId == base.lessonId && AtBaseTakes(base) && id in selected && recorded == selected[id].synthesisBaseKey &&
      exists i :: FirstNotCurrent(selected, base, i) && (id, derived) == (base.segments[i].id, base.segments[i].cacheKey)
    case UnplannedSelection(id) =>
      d.lessonId == base.lessonId && AtBaseTakes(base) && AllCurrent(selected, base) && FirstUnplanned(selected, base, id)
    case _ => false
  }

  // ----- against the plan derived at its takes -----

  /** The segment is selected, and its key is the one that was recorded. */
  ghost predicate KeyRecorded(selected: map<string, SelectedTake>, s: PlannedSegment) {
    s.id in selected && selected[s.id].selectedCacheKey == s.cacheKey
  }

  ghost predicate FirstNotRecorded(selected: map<string, SelectedTake>, plan: RenderPlan, i: int) {
    && 0 <= i < |plan.segments| && !KeyRecorded(selected, plan.segments[i])
    && forall j :: 0 <= j < i ==> KeyRecorded(selected, plan.segments[j])
  }

  method VerifySelectedKeys(applied: AppliedSelection, plan: RenderPlan) returns (fault: Option<TakesError>)
    ensures fault.None? <==>
      (forall i :: 0 <= i < |plan.segments| ==> KeyRecorded(applied.selected, plan.segments[i])) && AllPlanned(applied.selected, plan)
    ensures fault.Some? ==> RefusesKeys(applied.selected, plan, fault.value)
  {
    for i := 0 to |plan.segments|
      invariant forall j :: 0 <= j < i ==> KeyRecorded(applied.selected, plan.segments[j])
    {
      var s := plan.segments[i];
      if s.id !in applied.selected {
        assert FirstNotRecorded(applied.selected, plan, i);
        return Some(SelectedPlanMismatch(s.id));
      }
      var recorded := applied.selected[s.id];
      if recorded.selectedCacheKey != s.cacheKey {
        assert FirstNotRecorded(applied.selected, plan, i);
        return Some(SelectedCacheKeyMismatch(s.id, recorded.selectedTake, recorded.selectedCacheKey, s.cacheKey));
      }
    }
    var unplanned := CheckAllPlanned(applied.selected, plan);
    if unplanned.Some? {
      return Some(SelectedPlanMismatch(unplanned.value));
    }
    return None;
  }

  ghost predicate RefusesKeys(selected: map<string, SelectedTake>, plan: RenderPlan, e: TakesError) {
    match e
    case SelectedPlanMismatch(id) =>
      (id !in selected && exists i :: FirstNotRecorded(selected, plan, i) && plan.segments[i].id == id) ||
      FirstUnplanned(selected, plan, id)
    case SelectedCacheKeyMismatch(id, take, recorded, derived) =>
      id in selected && (take, recorded) == (selected[id].selectedTake, selected[id].selectedCacheKey) &&
      exists i :: FirstNotRecorded(selected, plan, i) && (plan.segments[i].id, plan.segments[i].cacheKey) == (id, derived)
    case _ => false
  }

  /** `TakeSelection::explicit`: the takes a reviewer recorded, with the audio that was approved. */
  function ExplicitSelection(applied: AppliedSelection): TakeSelection {
    TakeSelection(Explicit, map id | id in applied.selected ::
      ResolvedTake(applied.selected[id].selectedTake, Some(applied.selected[id].audioDigest)))
  }

  // ----- the pipeline -----

  /** The planned segment is the recorded approval: its take, its keys and its audio. */
  ghost predicate CarriesApproval(p: PlannedSegment, s: SelectedTake) {
    && p.id == s.segmentId && p.take == s.selectedTake && p.cacheKey == s.selectedCacheKey
    && p.synthesisBaseKey == s.synthesisBaseKey && p.audioDigest == Some(s.audioDigest)
  }

  /** A document that passed both gates, and the plans it was and will be compared with. */
  ghost predicate Pipeline(d: TakesDocument, h: Hasher, lesson: Lesson.ValidatedLesson, context: SynthesisContext,
                           base: RenderPlan, applied: AppliedSelection)
  {
    && Lesson.LessonInvariants(lesson.authored)
    && MadeFrom(base, h, lesson, context, IMPLICIT_SELECTION)
    && TakesInvariants(d) && Reconciles(d, base) && applied == AppliedSelection(SelectedMap(d.selections))
  }

  /** The segment is selected, on the digest of its own speech at the base take. */
  ghost predicate SelectedOnItsDigest(d: TakesDocument, h: Hasher, context: SynthesisContext, segment: Lesson.LessonSegment) {
    exists i :: 0 <= i < |d.selections| && d.selections[i].segmentId == segment.id &&
                d.selections[i].synthesisBaseKey == SynthesisDigest(h, context, segment.Speech(), BASE_TAKE)
  }

  ghost predicate NamesASegment(lesson: Lesson.ValidatedLesson, id: string) {
    exists i :: 0 <= i < |lesson.authored.segments| && lesson.authored.segments[i].id == id
  }

  /**
   Against a lesson's own plan, a document reconciles exactly when it is of that lesson, every
   segment is selected on the digest of its speech, and every selection names a segment.
   */
  lemma ReconcilesExactly(d: TakesDocument, h: Hasher, lesson: Lesson.ValidatedLesson, context: SynthesisContext, base: RenderPlan)
    requires SelectedOnce(d.selections) && MadeFrom(base, h, lesson, context, IMPLICIT_SELECTION)
    ensures Reconciles(d, base) <==>
              && d.lessonId == lesson.authored.lessonId
              && (forall i :: 0 <= i < |lesson.authored.segments| ==> SelectedOnItsDigest(d, h, context, lesson.authored.segments[i]))
              && (forall i :: 0 <= i < |d.selections| ==> NamesASegment(lesson, d.selections[i].segmentId))
  {
    PlannedHeader(base, h, lesson, context, IMPLICIT_SELECTION);
    PlanningIsPointwise(h, lesson, context, IMPLICIT_SELECTION);
    forall i | 0 <= i < |base.segments|
      ensures base.segments[i].take == BASE_TAKE && base.segments[i].id == lesson.authored.segments[i].id
      ensures Current(SelectedMap(d.selections), base.segments[i]) <==> SelectedOnItsDigest(d, h, context, lesson.authored.segments[i])
    {
      PlannedKeys(base, h, lesson, context, IMPLICIT_SELECTION, i);
      CurrentIsOnDigest(d, h, context, lesson.authored.segments[i], base.segments[i]);
    }
    PlannedIsNamed(d, lesson, base);
  }

  lemma CurrentIsOnDigest(d: TakesDocument, h: Hasher, context: SynthesisContext, segment: Lesson.LessonSegment, p: PlannedSegment)
    requires SelectedOnce(d.selections) && p.id == segment.id
    requires p.cacheKey == SynthesisDigest(h, context, segment.Speech(), BASE_TAKE)
    ensures Current(SelectedMap(d.selections), p) <==> SelectedOnItsDigest(d, h, context, segment)
  {
    SelectedMapAt(d.selections);
    if Current(SelectedMap(d.selections), p) {
      var s := SelectedMap(d.selections)[p.id];
      var i :| 0 <= i < |d.selections| && d.selections[i] == s;
    }
  }

  lemma PlannedIsNamed(d: TakesDocument, lesson: Lesson.ValidatedLesson, base: RenderPlan)
    requires SelectedOnce(d.selections) && |base.segments| == |lesson.authored.segments|
    requires forall i :: 0 <= i < |base.segments| ==> base.segments[i].id == lesson.authored.segments[i].id
    ensures AllPlanned(SelectedMap(d.selections), base) <==>
            forall i :: 0 <= i < |d.selections| ==> NamesASegment(lesson, d.selections[i].segmentId)
  {
    SelectedMapAt(d.selections);
    forall id ensures IsPlanned(base, id) <==> NamesASegment(lesson, id) {
      if IsPlanned(base, id) {
        var i :| 0 <= i < |base.segments| && base.segments[i].id == id;
        assert lesson.authored.segments[i].id == id;
      }
      if NamesASegment(lesson, id) {
        var i :| 0 <= i < |base.segments| && lesson.authored.segments[i].id == id;
        assert base.segments[i].id == id;
      }
    }
    forall id | id in SelectedMap(d.selections) ensures exists i :: 0 <= i < |d.selections| && d.selections[i].segmentId == id {
      var s := SelectedMap(d.selections)[id];
      var i :| 0 <= i < |d.selections| && d.selections[i] == s;
    }
  }

  /** The plan at the recorded takes always exists, and describes exactly the selected segments. */
  lemma SelectedPlanExists(d: TakesDocument, h: Hasher, lesson: Lesson.ValidatedLesson, context: SynthesisContext,
                           base: RenderPlan, applied: AppliedSelection) returns (plan: RenderPlan)
    requires Pipeline(d, h, lesson, context, base, applied)
    ensures MadeFrom(plan, h, lesson, context, ExplicitSelection(applied)) && |plan.segments| == |base.segments|
    ensures forall i :: 0 <= i < |plan.segments| ==> plan.segments[i].id == base.segments[i].id && plan.segments[i].id in applied.selected
    ensures AllPlanned(applied.selected, plan)
    ensures plan.lessonId == d.lessonId && plan.takeSelectionSource == Explicit
  {
    PlanningIsPointwise(h, lesson, context, IMPLICIT_SELECTION);
    PlanningIsPointwise(h, lesson, context, ExplicitSelection(applied));
    PlannedHeader(base, h, lesson, context, IMPLICIT_SELECTION);
    plan := ForLessonWithTakes(h, lesson, context, ExplicitSelection(applied)).value;
    forall i | 0 <= i < |plan.segments| ensures plan.segments[i].id == base.segments[i].id && plan.segments[i].id in applied.selected {
      PlannedKeys(plan, h, lesson, context, ExplicitSelection(applied), i);
      PlannedKeys(base, h, lesson, context, IMPLICIT_SELECTION, i);
      assert Current(applied.selected, base.segments[i]);
    }
    PlannedHeader(plan, h, lesson, context, ExplicitSelection(applied));
    forall id | id in applied.selected ensures IsPlanned(plan, id) {
      var i :| 0 <= i < |base.segments| && base.segments[i].id == id;
      assert plan.segments[i].id == id;
    }
  }

  /** The selection that stands for one segment of the take-zero plan. */
  lemma SelectionFor(d: TakesDocument, base: RenderPlan, applied: AppliedSelection, i: nat)
    requires TakesInvariants(d) && Reconciles(d, base) && applied == AppliedSelection(SelectedMap(d.selections))
    requires i < |base.segments|
    ensures var p := base.segments[i];
            && p.id in applied.selected
            && var s := applied.selected[p.id];
               s.segmentId == p.id && s in d.selections && SoundSelection(s) && s.synthesisBaseKey == p.cacheKey
  {
    SelectedMapAt(d.selections);
    assert Current(applied.selected, base.segments[i]);
  }

  /** One segment of the selected plan: only its own take's key is left to verify. */
  lemma SelectedSegment(d: TakesDocument, h: Hasher, lesson: Lesson.ValidatedLesson, context: SynthesisContext,
                        base: RenderPlan, applied: AppliedSelection, plan: RenderPlan, i: nat)
    requires Pipeline(d, h, lesson, context, base, applied)
    requires MadeFrom(plan, h, lesson, context, ExplicitSelection(applied)) && i < |plan.segments|
    ensures var p := plan.segments[i];
            && p.id in applied.selected
            && var s := applied.selected[p.id];
               && s.segmentId == p.id && s in d.selections
               && p.take == s.selectedTake && p.audioDigest == Some(s.audioDigest) && p.synthesisBaseKey == s.synthesisBaseKey
               && p.cacheKey == SynthesisDigest(h, context, p.Speech(), s.selectedTake)
               && (s.selectedTake == BASE_TAKE ==> p.cacheKey == s.selectedCacheKey)
  {
    PlanningIsPointwise(h, lesson, context, IMPLICIT_SELECTION);
    PlannedKeys(plan, h, lesson, context, ExplicitSelection(applied), i);
    PlannedKeys(base, h, lesson, context, IMPLICIT_SELECTION, i);
    SelectionFor(d, base, applied, i);
  }

  /**
   The segment is selected; its recorded key is right exactly when it is the digest of its
   own take, exactly when the plan carries the whole approval, and always at the base take.
   */
  ghost predicate SegmentVerdict(selected: map<string, SelectedTake>, h: Hasher, context: SynthesisContext, p: PlannedSegment) {
    p.id in selected &&
    var s := selected[p.id];
    && (KeyRecorded(selected, p) <==> CarriesApproval(p, s))
    && (KeyRecorded(selected, p) <==> s.selectedCacheKey == SynthesisDigest(h, context, p.Speech(), s.selectedTake))
    && (s.selectedTake == BASE_TAKE ==> KeyRecorded(selected, p))
  }

  /** Where every segment's verdict stands and nothing is unplanned, only a retake's key can be refused. */
  lemma OnlyRetakesRefused(selected: map<string, SelectedTake>, h: Hasher, context: SynthesisContext, plan: RenderPlan, e: TakesError)
    requires forall i :: 0 <= i < |plan.segments| ==> SegmentVerdict(selected, h, context, plan.segments[i])
    requires AllPlanned(selected, plan) && RefusesKeys(selected, plan, e)
    ensures e.SelectedCacheKeyMismatch? && e.selectedTake != BASE_TAKE
  {
    if e.SelectedCacheKeyMismatch? {
      var i :| FirstNotRecorded(selected, plan, i) && plan.segments[i].id == e.segmentId;
      assert SegmentVerdict(selected, h, context, plan.segments[i]);
    }
  }

  /**
   The take pipeline is sound and complete. For a document that validates and reconciles,
   verifying the plan at its takes never finds a plan mismatch and can fail only on a retake;
   it succeeds exactly when every recorded key is the digest of its own take, and then every
   planned segment carries exactly the recorded approval.
   */
  lemma TakePipeline(d: TakesDocument, h: Hasher, lesson: Lesson.ValidatedLesson, context: SynthesisContext,
                     base: RenderPlan, applied: AppliedSelection, plan: RenderPlan)
    requires Pipeline(d, h, lesson, context, base, applied)
    requires MadeFrom(plan, h, lesson, context, ExplicitSelection(applied))
    ensures forall e :: RefusesKeys(applied.selected, plan, e) ==> e.SelectedCacheKeyMismatch? && e.selectedTake != BASE_TAKE
    ensures forall i :: 0 <= i < |plan.segments| ==> SegmentVerdict(applied.selected, h, context, plan.segments[i])
    ensures AllPlanned(applied.selected, plan)
  {
    EveryVerdict(d, h, lesson, context, base, applied, plan);
    forall e | RefusesKeys(applied.selected, plan, e) ensures e.SelectedCacheKeyMismatch? && e.selectedTake != BASE_TAKE {
      OnlyRetakesRefused(applied.selected, h, context, plan, e);
    }
  }

  lemma EveryVerdict(d: TakesDocument, h: Hasher, lesson: Lesson.ValidatedLesson, context: SynthesisContext,
                     base: RenderPlan, applied: AppliedSelection, plan: RenderPlan)
    requires Pipeline(d, h, lesson, context, base, applied)
    requires MadeFrom(plan, h, lesson, context, ExplicitSelection(applied))
    ensures forall i :: 0 <= i < |plan.segments| ==> SegmentVerdict(applied.selected, h, context, plan.segments[i])
    ensures AllPlanned(applied.selected, plan)
  {
    var same := SelectedPlanExists(d, h, lesson, context, base, applied);
    assert plan == same;
    forall i | 0 <= i < |plan.segments| ensures SegmentVerdict(applied.selected, h, context, plan.segments[i]) {
      SelectedSegment(d, h, lesson, context, base, applied, plan, i);
    }
  }
}
