/** Deterministic render planning: keys, plan identity, resume and retakes. */
module Plan {
  import opened Canonical
  import opened Decode
  import opened Identity
  import opened Lesson
  import opened Schema
  import opened Text
  import opened Wrappers

  datatype TakeSelectionSource = Implicit | Explicit

  const BASE_TAKE: u32 := 0
  const PLAN_SCHEMA_VERSION := SchemaVersion(4, 0)

  datatype PlannedSegment = PlannedSegment(
    id: string,
    speaker: string,
    voiceProfile: string,
    displayText: string,
    spokenText: string,
    style: DeliveryStyle,
    pauseAfterMs: u32,
    take: u32,
    cacheKey: string,
    synthesisBaseKey: string,
    audioDigest: Option<string>)
  {
    function Speech(): Identity.Speech {
      Identity.Speech(speaker, spokenText, style)
    }
  }

  datatype RenderPlan = RenderPlan(
    schemaVersion: SchemaVersion,
    lessonId: string,
    planHash: string,
    takeSelectionSource: TakeSelectionSource,
    segments: seq<PlannedSegment>)

  datatype PlanError =
    | UnresolvedSpeaker(segmentId: string, speaker: string)
    | UnplannedRetake(segmentId: string)
    | RetakeUsesSelectedTake(segmentId: string, take: u32)
    | BaseTakeKeyMismatch(segmentId: string)
    | RetakeUsesBaseKey(segmentId: string, take: u32)

  datatype ResolvedTake = ResolvedTake(take: u32, approvedAudio: Option<string>)

  /** The takes a plan is derived at, and where they came from. */
  datatype TakeSelection = TakeSelection(source: TakeSelectionSource, resolved: map<string, ResolvedTake>) {
    /** What the selection says of a segment; one it does not name stays at the base take. */
    function TakeOf(id: string): ResolvedTake {
      if id in resolved then resolved[id] else ResolvedTake(BASE_TAKE, None)
    }
  }

  const IMPLICIT_SELECTION := TakeSelection(Implicit, map[])

  // ----- planning -----

  function PlanSegment(h: Hasher, speakers: map<string, string>, context: SynthesisContext, selection: TakeSelection,
                       segment: LessonSegment): Result<PlannedSegment, PlanError>
  {
    if context.VoiceConditioningFor(segment.speaker).None? || segment.speaker !in speakers then
      Failure(UnresolvedSpeaker(segment.id, segment.speaker))
    else
      var resolved := selection.TakeOf(segment.id);
      Success(PlannedSegment(
        segment.id, segment.speaker, speakers[segment.speaker], segment.displayText, segment.spokenText, segment.style,
        segment.pauseAfterMs, resolved.take,
        SynthesisDigest(h, context, segment.Speech(), resolved.take),
        SynthesisDigest(h, context, segment.Speech(), BASE_TAKE),
        resolved.approvedAudio))
  }

  /** Of a lesson segment, only its speaker, its spoken text and its style reach a key. */
  lemma OnlySpeechReachesTheKey(context: SynthesisContext, a: LessonSegment, b: LessonSegment, take: u32)
    ensures SynthesisPreimage(context, a.Speech(), take) == SynthesisPreimage(context, b.Speech(), take) <==>
              a.speaker == b.speaker && a.spokenText == b.spokenText && a.style == b.style
  {
    SynthesisPreimageIsExact(context, a.Speech(), take, context, b.Speech(), take);
  }

  /** Every segment's plan or refusal, in speaking order. */
  function PlanEach(h: Hasher, speakers: map<string, string>, context: SynthesisContext, selection: TakeSelection,
                    segments: seq<LessonSegment>): (r: seq<Result<PlannedSegment, PlanError>>)
    ensures |r| == |segments|
  {
    seq(|segments|, i requires 0 <= i < |segments| => PlanSegment(h, speakers, context, selection, segments[i]))
  }

  /** The fields of a planned segment that identify its plan: all but the base key and the approved audio. */
  function PlanFields(s: PlannedSegment): seq<Field> {
    [ ("id", CanonicalValue.Text(s.id)),
      ("speaker", CanonicalValue.Text(s.speaker)),
      ("voice_profile", CanonicalValue.Text(s.voiceProfile)),
      ("display_text", CanonicalValue.Text(s.displayText)),
      ("spoken_text", CanonicalValue.Text(s.spokenText)),
      ("style", CanonicalValue.Text(s.style.Name())),
      ("pause_after_ms", Unsigned(s.pauseAfterMs)),
      ("take", Unsigned(s.take)),
      ("cache_key", CanonicalValue.Text(s.cacheKey)) ]
  }

  function PlanPreimage(segments: seq<PlannedSegment>): seq<byte> {
    Bytes(Array(seq(|segments|, i requires 0 <= i < |segments| => Object(FieldsOf(PlanFields(segments[i]))))))
  }

  /** `derived_hash`: the plan's identity recomputed from its segments. */
  function DerivedHash(h: Hasher, plan: RenderPlan): string {
    h(PlanPreimage(plan.segments))
  }

  function ForLessonWithTakes(h: Hasher, lesson: ValidatedLesson, context: SynthesisContext, selection: TakeSelection)
    : Result<RenderPlan, PlanError>
  {
    var segments := Collect(PlanEach(h, lesson.authored.speakers, context, selection, lesson.authored.segments));
    if segments.Failure? then Failure(segments.error)
    else Success(RenderPlan(PLAN_SCHEMA_VERSION, lesson.authored.lessonId, h(PlanPreimage(segments.value)), selection.source, segments.value))
  }

  /** `key_for`: the identity an executor recomputes for a planned segment. */
  function KeyFor(h: Hasher, context: SynthesisContext, segment: PlannedSegment): string {
    SynthesisDigest(h, context, segment.Speech(), segment.take)
  }

  /** A speaker that can be planned: its conditioning is resolved and the lesson binds it to a profile. */
  ghost predicate Resolvable(speakers: map<string, string>, context: SynthesisContext, segment: LessonSegment) {
    segment.speaker in context.voiceConditioningHashes && segment.speaker in speakers
  }

  /** Segment `i` is the first whose speaker is unresolved, and `e` names it. */
  ghost predicate RefusesAt(speakers: map<string, string>, context: SynthesisContext, segments: seq<LessonSegment>, i: nat, e: PlanError) {
    && i < |segments| && !Resolvable(speakers, context, segments[i])
    && (forall j :: 0 <= j < i ==> Resolvable(speakers, context, segments[j]))
    && e == UnresolvedSpeaker(segments[i].id, segments[i].speaker)
  }

  /** The plan the planner makes of a segment whose speaker is resolved. */
  ghost predicate PlannedAs(h: Hasher, speakers: map<string, string>, context: SynthesisContext, selection: TakeSelection,
                            segment: LessonSegment, p: PlannedSegment)
  {
    PlanSegment(h, speakers, context, selection, segment) == Success(p)
  }

  /** Planning is segment by segment, and is refused exactly at the first unresolved speaker. */
  lemma PlanningIsPointwise(h: Hasher, lesson: ValidatedLesson, context: SynthesisContext, selection: TakeSelection)
    ensures var r := ForLessonWithTakes(h, lesson, context, selection);
            var speakers, segments := lesson.authored.speakers, lesson.authored.segments;
            if r.Failure? then (exists i :: RefusesAt(speakers, context, segments, i, r.error))
            else |r.value.segments| == |segments| && forall i :: 0 <= i < |segments| ==>
              Resolvable(speakers, context, segments[i]) &&
              PlannedAs(h, speakers, context, selection, segments[i], r.value.segments[i])
  {
    var speakers, segments := lesson.authored.speakers, lesson.authored.segments;
    var each := PlanEach(h, speakers, context, selection, segments);
    CollectAt(each);
    var r := ForLessonWithTakes(h, lesson, context, selection);
    if r.Failure? {
      var i: int :| FailsFirst(each, i, r.error);
      assert each[i] == PlanSegment(h, speakers, context, selection, segments[i]);
      assert forall j :: 0 <= j < i ==> each[j] == PlanSegment(h, speakers, context, selection, segments[j]);
      assert RefusesAt(speakers, context, segments, i, r.error);
    } else {
      forall i | 0 <= i < |segments|
        ensures Resolvable(speakers, context, segments[i])
        ensures PlannedAs(h, speakers, context, selection, segments[i], r.value.segments[i])
      {
        assert each[i] == PlanSegment(h, speakers, context, selection, segments[i]);
      }
    }
  }

  // ----- the selection recorded in a plan -----

  /** At the base take the two keys are one key, and at any other they are two. */
  ghost predicate KeysAgreeWithTake(s: PlannedSegment) {
    s.take == BASE_TAKE <==> s.synthesisBaseKey == s.cacheKey
  }

  method VerifyRecordedSelection(plan: RenderPlan) returns (fault: Option<PlanError>)
    ensures fault.None? <==> forall i :: 0 <= i < |plan.segments| ==> KeysAgreeWithTake(plan.segments[i])
    ensures fault.Some? ==> exists i :: FirstDisagreement(plan.segments, i, fault.value)
  {
    for i := 0 to |plan.segments|
      invariant forall j :: 0 <= j < i ==> KeysAgreeWithTake(plan.segments[j])
    {
      var s := plan.segments[i];
      var keysMatch := s.synthesisBaseKey == s.cacheKey;
      if s.take == BASE_TAKE && !keysMatch {
        assert FirstDisagreement(plan.segments, i, BaseTakeKeyMismatch(s.id));
        return Some(BaseTakeKeyMismatch(s.id));
      }
      if s.take != BASE_TAKE && keysMatch {
        assert FirstDisagreement(plan.segments, i, RetakeUsesBaseKey(s.id, s.take));
        return Some(RetakeUsesBaseKey(s.id, s.take));
      }
    }
    return None;
  }

  ghost predicate FirstDisagreement(segments: seq<PlannedSegment>, i: int, e: PlanError) {
    && 0 <= i < |segments| && !KeysAgreeWithTake(segments[i])
    && (forall j :: 0 <= j < i ==> KeysAgreeWithTake(segments[j]))
    && e == (if segments[i].take == BASE_TAKE then BaseTakeKeyMismatch(segments[i].id)
             else RetakeUsesBaseKey(segments[i].id, segments[i].take))
  }

  /** The planner made `plan` from this lesson, context and selection. */
  ghost predicate MadeFrom(plan: RenderPlan, h: Hasher, lesson: ValidatedLesson, context: SynthesisContext, selection: TakeSelection) {
    ForLessonWithTakes(h, lesson, context, selection) == Success(plan)
  }

  /** The preimages of a plan's keys: each segment at its take and at the base take. */
  ghost function KeyPreimages(context: SynthesisContext, segments: seq<PlannedSegment>): set<seq<byte>> {
    (set i | 0 <= i < |segments| :: SynthesisPreimage(context, segments[i].Speech(), segments[i].take)) +
    (set i | 0 <= i < |segments| :: SynthesisPreimage(context, segments[i].Speech(), BASE_TAKE))
  }

  /** What the planner wrote in each segment, read off the plan itself. */
  lemma PlannedKeys(plan: RenderPlan, h: Hasher, lesson: ValidatedLesson, context: SynthesisContext, selection: TakeSelection, i: nat)
    requires MadeFrom(plan, h, lesson, context, selection) && i < |plan.segments|
    ensures |plan.segments| == |lesson.authored.segments|
    ensures var s, p := lesson.authored.segments[i], plan.segments[i];
            && p.id == s.id && p.Speech() == s.Speech() && p.displayText == s.displayText && p.pauseAfterMs == s.pauseAfterMs
            && s.speaker in lesson.authored.speakers && p.voiceProfile == lesson.authored.speakers[s.speaker]
            && ResolvedTake(p.take, p.audioDigest) == selection.TakeOf(s.id)
            && p.cacheKey == KeyFor(h, context, p)
            && p.synthesisBaseKey == SynthesisDigest(h, context, p.Speech(), BASE_TAKE)
  {
    PlanningIsPointwise(h, lesson, context, selection);
    assert PlannedAs(h, lesson.authored.speakers, context, selection, lesson.authored.segments[i], plan.segments[i]);
  }

  /** A plan is of its lesson, remembers where its takes came from, and is of the current schema. */
  lemma PlannedHeader(plan: RenderPlan, h: Hasher, lesson: ValidatedLesson, context: SynthesisContext, selection: TakeSelection)
    requires MadeFrom(plan, h, lesson, context, selection)
    ensures plan.lessonId == lesson.authored.lessonId && plan.takeSelectionSource == selection.source
    ensures plan.schemaVersion == SchemaVersion(4, 0) && DerivedHash(h, plan) == plan.planHash
  {
    var each := Collect(PlanEach(h, lesson.authored.speakers, context, selection, lesson.authored.segments));
    assert each.Success?;
  }

  /** The executor's recomputed identity of a planned segment is the planned key. */
  lemma KeyForIsPlannedKey(plan: RenderPlan, h: Hasher, lesson: ValidatedLesson, context: SynthesisContext, selection: TakeSelection)
    requires MadeFrom(plan, h, lesson, context, selection)
    ensures forall i :: 0 <= i < |plan.segments| ==> KeyFor(h, context, plan.segments[i]) == plan.segments[i].cacheKey
    ensures DerivedHash(h, plan) == plan.planHash
  {
    forall i | 0 <= i < |plan.segments| ensures KeyFor(h, context, plan.segments[i]) == plan.segments[i].cacheKey {
      PlannedKeys(plan, h, lesson, context, selection, i);
    }
  }

  /** The digests of two takes of one segment differ unless the digest collides. */
  lemma TakesHaveDistinctPreimages(context: SynthesisContext, speech: Identity.Speech, a: u32, b: u32)
    ensures SynthesisPreimage(context, speech, a) == SynthesisPreimage(context, speech, b) <==> a == b
  {
    SynthesisPreimageIsExact(context, speech, a, context, speech, b);
  }

  /**
   A planner-made plan passes the check of its recorded keys if and only if no retake's key
   collides with its base key; a digest without collisions on the plan's own keys suffices.
   */
  lemma PlannedSelectionVerifies(plan: RenderPlan, h: Hasher, lesson: ValidatedLesson, context: SynthesisContext, selection: TakeSelection)
    requires MadeFrom(plan, h, lesson, context, selection)
    ensures (forall i :: 0 <= i < |plan.segments| ==> KeysAgreeWithTake(plan.segments[i])) <==>
            (forall i :: 0 <= i < |plan.segments| && plan.segments[i].take != BASE_TAKE ==>
               SynthesisDigest(h, context, plan.segments[i].Speech(), plan.segments[i].take)
                 != SynthesisDigest(h, context, plan.segments[i].Speech(), BASE_TAKE))
    ensures CollisionFree(h, KeyPreimages(context, plan.segments)) ==>
            forall i :: 0 <= i < |plan.segments| ==> KeysAgreeWithTake(plan.segments[i])
  {
    forall i | 0 <= i < |plan.segments|
      ensures var p := plan.segments[i];
              p.cacheKey == SynthesisDigest(h, context, p.Speech(), p.take) &&
              p.synthesisBaseKey == SynthesisDigest(h, context, p.Speech(), BASE_TAKE) &&
              (CollisionFree(h, KeyPreimages(context, plan.segments)) ==> KeysAgreeWithTake(p))
    {
      var p := plan.segments[i];
      PlannedKeys(plan, h, lesson, context, selection, i);
      TakesHaveDistinctPreimages(context, p.Speech(), p.take, BASE_TAKE);
      assert SynthesisPreimage(context, p.Speech(), p.take) in KeyPreimages(context, plan.segments);
      assert SynthesisPreimage(context, p.Speech(), BASE_TAKE) in KeyPreimages(context, plan.segments);
    }
  }

  // ----- resume -----

  /** The takes a retained plan established; a later segment of the same name would win. */
  function Resolutions(segments: seq<PlannedSegment>): map<string, ResolvedTake> {
    if segments == [] then map[]
    else
      var last := segments[|segments| - 1];
      Resolutions(segments[..|segments| - 1])[last.id := ResolvedTake(last.take, last.audioDigest)]
  }

  function Recovered(retained: RenderPlan): TakeSelection {
    TakeSelection(retained.takeSelectionSource, Resolutions(retained.segments))
  }

  ghost predicate DistinctIds(segments: seq<PlannedSegment>) {
    forall i, j :: 0 <= i < j < |segments| ==> segments[i].id != segments[j].id
  }

  lemma {:induction false} ResolutionsAt(segments: seq<PlannedSegment>, i: nat)
    requires i < |segments| && DistinctIds(segments)
    ensures segments[i].id in Resolutions(segments)
    ensures Resolutions(segments)[segments[i].id] == ResolvedTake(segments[i].take, segments[i].audioDigest)
  {
    if i < |segments| - 1 {
      ResolutionsAt(segments[..|segments| - 1], i);
    }
  }

  /** Two selections that say the same of every planned segment, from the same source, make the same plan. */
  lemma SelectionsThatAgree(h: Hasher, lesson: ValidatedLesson, context: SynthesisContext, a: TakeSelection, b: TakeSelection)
    requires a.source == b.source
    requires forall i :: 0 <= i < |lesson.authored.segments| ==>
      a.TakeOf(lesson.authored.segments[i].id) == b.TakeOf(lesson.authored.segments[i].id)
    ensures ForLessonWithTakes(h, lesson, context, a) == ForLessonWithTakes(h, lesson, context, b)
  {
    assert PlanEach(h, lesson.authored.speakers, context, a, lesson.authored.segments)
        == PlanEach(h, lesson.authored.speakers, context, b, lesson.authored.segments);
  }

  lemma ValidatedIdsAreDistinct(plan: RenderPlan, h: Hasher, lesson: ValidatedLesson, context: SynthesisContext, selection: TakeSelection)
    requires LessonInvariants(lesson.authored) && MadeFrom(plan, h, lesson, context, selection)
    ensures DistinctIds(plan.segments)
  {
    forall i, j | 0 <= i < j < |plan.segments| ensures plan.segments[i].id != plan.segments[j].id {
      PlannedKeys(plan, h, lesson, context, selection, i);
      PlannedKeys(plan, h, lesson, context, selection, j);
      assert SegmentPasses(lesson.authored, j, 16);
    }
  }

  /** Resuming from a retained plan makes that plan again, selection source included. */
  lemma ResumeReproducesThePlan(plan: RenderPlan, h: Hasher, lesson: ValidatedLesson, context: SynthesisContext, selection: TakeSelection)
    requires LessonInvariants(lesson.authored) && MadeFrom(plan, h, lesson, context, selection)
    ensures MadeFrom(plan, h, lesson, context, Recovered(plan))
  {
    ValidatedIdsAreDistinct(plan, h, lesson, context, selection);
    PlanningIsPointwise(h, lesson, context, selection);
    forall i | 0 <= i < |lesson.authored.segments|
      ensures Recovered(plan).TakeOf(lesson.authored.segments[i].id) == selection.TakeOf(lesson.authored.segments[i].id)
    {
      PlannedKeys(plan, h, lesson, context, selection, i);
      ResolutionsAt(plan.segments, i);
    }
    SelectionsThatAgree(h, lesson, context, Recovered(plan), selection);
  }

  // ----- the plan hash and the base key it leaves out -----

  const PLAN_FIELDS := ["id", "speaker", "voice_profile", "display_text", "spoken_text", "style", "pause_after_ms", "take", "cache_key"]

  lemma PlanFieldNames(s: PlannedSegment)
    ensures |PlanFields(s)| == 9 && forall i :: 0 <= i < 9 ==> PlanFields(s)[i].0 == PLAN_FIELDS[i]
    ensures DistinctNames(PlanFields(s))
  {
    var n := PLAN_FIELDS;
    assert forall i, j :: 0 <= i < j < 9 && |n[i]| == |n[j]| ==> n[i][0] != n[j][0];
    assert forall i, j :: 0 <= i < j < 9 ==> n[i] != n[j];
  }

  /** The value a plan hash takes of a segment under a name. */
  function Hashed(s: PlannedSegment, name: string): Option<CanonicalValue> {
    var fields := FieldsOf(PlanFields(s));
    if name in fields then Some(fields[name]) else None
  }

  lemma HashedIs(s: PlannedSegment, i: nat)
    requires i < 9
    ensures |PlanFields(s)| == 9 && Hashed(s, PLAN_FIELDS[i]) == Some(PlanFields(s)[i].1)
  {
    PlanFieldNames(s);
    FieldsOfAt(PlanFields(s), i);
  }

  /** What the plan hash identifies of a segment stands under its own name. */
  lemma HashedUnderItsNames(s: PlannedSegment)
    ensures Hashed(s, "id") == Some(CanonicalValue.Text(s.id)) && Hashed(s, "speaker") == Some(CanonicalValue.Text(s.speaker))
    ensures Hashed(s, "voice_profile") == Some(CanonicalValue.Text(s.voiceProfile))
    ensures Hashed(s, "display_text") == Some(CanonicalValue.Text(s.displayText))
    ensures Hashed(s, "spoken_text") == Some(CanonicalValue.Text(s.spokenText))
    ensures Hashed(s, "style") == Some(CanonicalValue.Text(s.style.Name()))
    ensures Hashed(s, "pause_after_ms") == Some(Unsigned(s.pauseAfterMs)) && Hashed(s, "take") == Some(Unsigned(s.take))
    ensures Hashed(s, "cache_key") == Some(CanonicalValue.Text(s.cacheKey))
  {
    HashedIs(s, 0);
    HashedIs(s, 1);
    HashedIs(s, 2);
    HashedIs(s, 3);
    HashedIs(s, 4);
    HashedIs(s, 5);
    HashedIs(s, 6);
    HashedIs(s, 7);
    HashedIs(s, 8);
  }

  /** Equal hashed fields leave only the base key and the approved audio to differ. */
  lemma EqualPlanFields(s: PlannedSegment, t: PlannedSegment)
    requires FieldsOf(PlanFields(s)) == FieldsOf(PlanFields(t))
    ensures t == s.(synthesisBaseKey := t.synthesisBaseKey, audioDigest := t.audioDigest)
  {
    PlanFieldNames(s);
    PlanFieldNames(t);
    FieldsInjective(PlanFields(s), PlanFields(t));
    var f, g := PlanFields(s), PlanFields(t);
    assert forall i :: 0 <= i < 9 ==> f[i].1 == g[i].1;
    EqualNames(s.style, t.style, Reproducible, Reproducible);
    assert f[0].1 == g[0].1 && f[1].1 == g[1].1 && f[2].1 == g[2].1 && f[3].1 == g[3].1 && f[4].1 == g[4].1;
    assert f[5].1 == g[5].1 && f[6].1 == g[6].1 && f[7].1 == g[7].1 && f[8].1 == g[8].1;
  }

  function PlanValue(segments: seq<PlannedSegment>): seq<CanonicalValue> {
    seq(|segments|, i requires 0 <= i < |segments| => Object(FieldsOf(PlanFields(segments[i]))))
  }

  /** A plan's preimage fixes every segment, up to the two fields it leaves out. */
  lemma PlanPreimageIsExact(a: seq<PlannedSegment>, b: seq<PlannedSegment>)
    requires PlanPreimage(a) == PlanPreimage(b)
    ensures |a| == |b| && forall i :: 0 <= i < |a| ==>
      b[i] == a[i].(synthesisBaseKey := b[i].synthesisBaseKey, audioDigest := b[i].audioDigest)
  {
    Injective(Array(PlanValue(a)), Array(PlanValue(b)));
    var x, y := PlanValue(a), PlanValue(b);
    assert x == y;
    forall i | 0 <= i < |a| ensures b[i] == a[i].(synthesisBaseKey := b[i].synthesisBaseKey, audioDigest := b[i].audioDigest) {
      assert x[i] == y[i];
      EqualPlanFields(a[i], b[i]);
    }
  }

  /**
   Leaving the base key out of the plan hash loses nothing: planner-made plans with one hash
   have equal base keys segment by segment, whatever lesson, context and selection they came
   from, because the hashed cache key already fixes every input of the base key.
   */
  lemma PlanHashFixesBaseKeys(h: Hasher,
                              p: RenderPlan, l: ValidatedLesson, c: SynthesisContext, s: TakeSelection,
                              p': RenderPlan, l': ValidatedLesson, c': SynthesisContext, s': TakeSelection)
    requires MadeFrom(p, h, l, c, s) && MadeFrom(p', h, l', c', s')
    requires CollisionFree(h, {PlanPreimage(p.segments), PlanPreimage(p'.segments)}
                              + KeyPreimages(c, p.segments) + KeyPreimages(c', p'.segments))
    requires p.planHash == p'.planHash
    ensures |p.segments| == |p'.segments|
    ensures forall i :: 0 <= i < |p.segments| ==>
      p'.segments[i] == p.segments[i].(audioDigest := p'.segments[i].audioDigest)
  {
    KeyForIsPlannedKey(p, h, l, c, s);
    KeyForIsPlannedKey(p', h, l', c', s');
    PlanPreimageIsExact(p.segments, p'.segments);
    forall i | 0 <= i < |p.segments| ensures p'.segments[i].synthesisBaseKey == p.segments[i].synthesisBaseKey {
      var a, b := p.segments[i], p'.segments[i];
      PlannedKeys(p, h, l, c, s, i);
      PlannedKeys(p', h, l', c', s', i);
      assert SynthesisPreimage(c, a.Speech(), a.take) in KeyPreimages(c, p.segments);
      assert SynthesisPreimage(c', b.Speech(), b.take) in KeyPreimages(c', p'.segments);
      SynthesisPreimageIsExact(c, a.Speech(), a.take, c', b.Speech(), b.take);
      SynthesisPreimageIsExact(c, a.Speech(), BASE_TAKE, c', b.Speech(), BASE_TAKE);
    }
  }

  // ----- retakes -----

  predicate IsPlanned(base: RenderPlan, id: string) {
    exists i :: 0 <= i < |base.segments| && base.segments[i].id == id
  }

  /** A request that can be honoured: a planned segment, at a take other than its selected one. */
  ghost predicate UsableRetake(selection: TakeSelection, base: RenderPlan, id: string, take: u32) {
    IsPlanned(base, id) && take != selection.TakeOf(id).take
  }

  function Retaken(retakes: map<string, u32>): map<string, ResolvedTake> {
    map id | id in retakes :: ResolvedTake(retakes[id], None)
  }

  /** Why a request cannot be honoured against the takes resolved so far. */
  function RetakeFault(resolved: map<string, ResolvedTake>, base: RenderPlan, id: string, take: u32): (e: Option<PlanError>)
    ensures e == if UsableRetake(TakeSelection(Explicit, resolved), base, id, take) then None else Some(RefusalOf(base, id, take))
  {
    if !IsPlanned(base, id) then Some(UnplannedRetake(id))
    else if take == (if id in resolved then resolved[id].take else BASE_TAKE) then Some(RetakeUsesSelectedTake(id, take))
    else None
  }

  /** The selection after requests for alternate performances. */
  method WithRetakes(selection: TakeSelection, base: RenderPlan, retakes: map<string, u32>) returns (r: Result<TakeSelection, PlanError>)
    ensures r.Success? <==> forall id :: id in retakes ==> IsPlanned(base, id) && retakes[id] != selection.TakeOf(id).take
    ensures r.Success? ==> r.value == RetakeSelection(selection, retakes)
    ensures r.Failure? ==> exists id :: RefusesRetake(selection, base, retakes, id, r.error)
  {
    if retakes == map[] {
      return Success(selection);
    }
    var ids := SortedKeys(retakes.Keys);
    AscendingIsDistinct(ids);
    var resolved, refused := ResolveRetakes(selection, base, retakes, ids);
    if refused.Some? {
      FirstRefused(selection, base, retakes, ids, refused.value.0);
      return Failure(refused.value.1);
    }
    AllInserted(selection.resolved, retakes, ids);
    return Success(TakeSelection(Implicit, resolved));
  }

  /** The loop over requests: the takes they leave, or the first that cannot be honoured. */
  method ResolveRetakes(selection: TakeSelection, base: RenderPlan, retakes: map<string, u32>, ids: seq<string>)
    returns (resolved: map<string, ResolvedTake>, refused: Option<(nat, PlanError)>)
    requires Distinct(ids) && forall id :: id in ids ==> id in retakes
    ensures refused.None? ==> AllUsable(selection, base, retakes, ids) && resolved == Inserted(selection.resolved, retakes, ids)
    ensures refused.Some? ==>
      var (n, e) := refused.value;
      && n < |ids| && AllUsable(selection, base, retakes, ids[..n]) && !UsableRetake(selection, base, ids[n], retakes[ids[n]])
      && e == RefusalOf(base, ids[n], retakes[ids[n]])
  {
    resolved := selection.resolved;
    for n := 0 to |ids|
      invariant AllUsable(selection, base, retakes, ids[..n])
      invariant resolved == Inserted(selection.resolved, retakes, ids[..n])
    {
      NotYetInserted(selection.resolved, retakes, ids, n);
      var fault := RetakeFault(resolved, base, ids[n], retakes[ids[n]]);
      if fault.Some? {
        return resolved, Some((n, fault.value));
      }
      assert ids[..n + 1] == ids[..n] + [ids[n]];
      resolved := resolved[ids[n] := ResolvedTake(retakes[ids[n]], None)];
    }
    assert ids[..|ids|] == ids;
    return resolved, None;
  }

  /** Why a request that cannot be honoured is refused. */
  function RefusalOf(base: RenderPlan, id: string, take: u32): PlanError {
    if IsPlanned(base, id) then RetakeUsesSelectedTake(id, take) else UnplannedRetake(id)
  }

  ghost predicate AllUsable(selection: TakeSelection, base: RenderPlan, retakes: map<string, u32>, ids: seq<string>) {
    forall id :: id in ids ==> id in retakes && UsableRetake(selection, base, id, retakes[id])
  }

  ghost predicate Distinct(ids: seq<string>) {
    forall i, j :: 0 <= i < j < |ids| ==> ids[i] != ids[j]
  }

  lemma AscendingIsDistinct(ids: seq<string>)
    requires Ascending(ids)
    ensures Distinct(ids)
  {
    forall i, j | 0 <= i < j < |ids| ensures ids[i] != ids[j] {
      LessAsymmetric(ids[i], ids[j]);
    }
  }

  ghost function Inserted(resolved: map<string, ResolvedTake>, retakes: map<string, u32>, ids: seq<string>): map<string, ResolvedTake>
    requires forall id :: id in ids ==> id in retakes
  {
    if ids == [] then resolved
    else
      var last := ids[|ids| - 1];
      Inserted(resolved, retakes, ids[..|ids| - 1])[last := ResolvedTake(retakes[last], None)]
  }

  lemma {:induction false} InsertedAt(resolved: map<string, ResolvedTake>, retakes: map<string, u32>, ids: seq<string>)
    requires forall id :: id in ids ==> id in retakes
    ensures Inserted(resolved, retakes, ids) == resolved + (map id | id in ids :: ResolvedTake(retakes[id], None))
  {
    if ids != [] {
      var init, last := ids[..|ids| - 1], ids[|ids| - 1];
      InsertedAt(resolved, retakes, init);
      assert ids == init + [last];
    }
  }

  lemma NotYetInserted(resolved: map<string, ResolvedTake>, retakes: map<string, u32>, ids: seq<string>, n: nat)
    requires Distinct(ids) && n < |ids| && forall id :: id in ids ==> id in retakes
    ensures var now := Inserted(resolved, retakes, ids[..n]);
            TakeSelection(Explicit, now).TakeOf(ids[n]) == TakeSelection(Explicit, resolved).TakeOf(ids[n])
    ensures Inserted(resolved, retakes, ids[..n + 1])
         == Inserted(resolved, retakes, ids[..n])[ids[n] := ResolvedTake(retakes[ids[n]], None)]
  {
    InsertedAt(resolved, retakes, ids[..n]);
    assert ids[n] !in ids[..n];
    assert ids[..n + 1][..n] == ids[..n];
  }

  lemma AllInserted(resolved: map<string, ResolvedTake>, retakes: map<string, u32>, ids: seq<string>)
    requires forall id :: id in ids <==> id in retakes
    ensures Inserted(resolved, retakes, ids) == resolved + Retaken(retakes)
  {
    InsertedAt(resolved, retakes, ids);
    assert (map id | id in ids :: ResolvedTake(retakes[id], None)) == Retaken(retakes);
  }

  function RetakeSelection(selection: TakeSelection, retakes: map<string, u32>): TakeSelection {
    if retakes == map[] then selection else TakeSelection(Implicit, selection.resolved + Retaken(retakes))
  }

  /** `id` is the first request, in name order, that cannot be honoured, and `e` says why. */
  ghost predicate RefusesRetake(selection: TakeSelection, base: RenderPlan, retakes: map<string, u32>, id: string, e: PlanError) {
    && id in retakes && !UsableRetake(selection, base, id, retakes[id])
    && (forall o :: o in retakes && Less(o, id) ==> UsableRetake(selection, base, o, retakes[o]))
    && e == (if IsPlanned(base, id) then RetakeUsesSelectedTake(id, retakes[id]) else UnplannedRetake(id))
  }

  lemma FirstRefused(selection: TakeSelection, base: RenderPlan, retakes: map<string, u32>, ids: seq<string>, n: nat)
    requires Ascending(ids) && (forall id :: id in ids <==> id in retakes) && n < |ids|
    requires AllUsable(selection, base, retakes, ids[..n]) && !UsableRetake(selection, base, ids[n], retakes[ids[n]])
    ensures RefusesRetake(selection, base, retakes, ids[n], RefusalOf(base, ids[n], retakes[ids[n]]))
  {
    forall o | o in retakes && Less(o, ids[n]) ensures UsableRetake(selection, base, o, retakes[o]) {
      LessAsymmetric(o, ids[n]);
      var k :| 0 <= k < |ids| && ids[k] == o;
      assert ids[..n][k] == o;
    }
  }

  /** A retake changes the take and the key of one segment, and withdraws its approval. */
  ghost predicate OnlyRetaken(before: PlannedSegment, after: PlannedSegment, take: u32) {
    && after == before.(take := take, cacheKey := after.cacheKey, audioDigest := None)
    && after.take != before.take
  }

  /**
   The blast radius of retakes: planning again changes exactly the named segments, each one's
   key really changes, every base key and every other segment stays, and the plan is no
   longer an explicit selection.
   */
  lemma RetakeBlastRadius(h: Hasher, lesson: ValidatedLesson, context: SynthesisContext, selection: TakeSelection,
                          base: RenderPlan, retakes: map<string, u32>, before: RenderPlan, after: RenderPlan)
    requires retakes != map[] && forall id :: id in retakes ==> UsableRetake(selection, base, id, retakes[id])
    requires MadeFrom(before, h, lesson, context, selection)
    requires MadeFrom(after, h, lesson, context, RetakeSelection(selection, retakes))
    ensures after.takeSelectionSource == Implicit && |after.segments| == |before.segments|
    ensures forall i :: 0 <= i < |before.segments| ==>
      var id := before.segments[i].id;
      if id in retakes then OnlyRetaken(before.segments[i], after.segments[i], retakes[id])
      else after.segments[i] == before.segments[i]
    ensures CollisionFree(h, KeyPreimages(context, before.segments) + KeyPreimages(context, after.segments)) ==>
      forall i :: 0 <= i < |before.segments| ==>
        (before.segments[i].id in retakes <==> after.segments[i].cacheKey != before.segments[i].cacheKey)
  {
    PlanningIsPointwise(h, lesson, context, selection);
    PlanningIsPointwise(h, lesson, context, RetakeSelection(selection, retakes));
    forall i | 0 <= i < |before.segments|
      ensures var id := before.segments[i].id;
              if id in retakes then OnlyRetaken(before.segments[i], after.segments[i], retakes[id])
              else after.segments[i] == before.segments[i]
      ensures CollisionFree(h, KeyPreimages(context, before.segments) + KeyPreimages(context, after.segments)) ==>
        (before.segments[i].id in retakes <==> after.segments[i].cacheKey != before.segments[i].cacheKey)
    {
      var p, q := before.segments[i], after.segments[i];
      PlannedKeys(before, h, lesson, context, selection, i);
      PlannedKeys(after, h, lesson, context, RetakeSelection(selection, retakes), i);
      TakesHaveDistinctPreimages(context, p.Speech(), p.take, q.take);
      assert SynthesisPreimage(context, p.Speech(), p.take) in KeyPreimages(context, before.segments);
      assert SynthesisPreimage(context, q.Speech(), q.take) in KeyPreimages(context, after.segments);
    }
  }
}
