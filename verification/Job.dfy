/** The job document, its state machine, and what holds over whole runs of it. */
module Job {
  import opened Wrappers

  datatype JobState =
    | Created | Validated | Planned | Rendering | Rendered | Verifying | Verified | NeedsReview
    | Assembling | QualityChecked | Published | Failed | Cancelled
  {
    predicate MayTransitionTo(next: JobState) {
      match this
      case Created => next == Validated
      case Validated => next == Planned
      case Planned => next == Rendering
      case Rendering => next in {Rendering, Rendered, Failed, Cancelled}
      case Rendered => next == Verifying
      case Verifying => next in {Verifying, Verified, NeedsReview, Failed}
      case Verified => next in {Assembling, Verifying}
      case NeedsReview => next in {Verified, Planned}
      case Assembling => next in {QualityChecked, Failed}
      case QualityChecked => next == Published
      case Failed => next in {Verifying, Planned}
      case Cancelled => next == Planned
      case Published => false
    }

    predicate HasRendered() {
      this in {Rendered, Verifying, Verified, NeedsReview, Assembling, QualityChecked, Published}
    }
  }

  datatype ReleaseStatus = PrivatePreview | ProductionRelease

  datatype JobStateError =
    | IllegalTransition(from: JobState, to: JobState)
    | AttemptOverflow
    | PrivateProfileCannotClaimProduction

  /** `NonZeroU32`. */
  type Attempt = n: nat | 0 < n < 0x1_0000_0000 witness 1

  datatype AbandonedAttempt = AbandonedAttempt(buildAttempt: Attempt, state: JobState)

  datatype SegmentStatus = SegmentStatus(cacheKey: string, audioDigest: string)

  datatype JobDocument = JobDocument(
    jobId: string,
    buildAttempt: Attempt,
    state: JobState,
    lastSuccessfulState: JobState,
    abandonedAttempt: Option<AbandonedAttempt>,
    lessonDigest: string,
    planHash: string,
    segments: map<string, SegmentStatus>,
    previewPackage: Option<string>,
    releaseStatus: ReleaseStatus)

  /** The lifecycle as a list of edges, read off its diagram from top to bottom. */
  const EDGES: set<(JobState, JobState)> := {
    (Created, Validated),
    (Validated, Planned),
    (Planned, Rendering),
    (Rendering, Rendering), (Rendering, Rendered), (Rendering, Failed), (Rendering, Cancelled),
    (Rendered, Verifying),
    (Verifying, Verifying), (Verifying, Verified), (Verifying, NeedsReview), (Verifying, Failed),
    (Verified, Assembling), (Verified, Verifying),
    (Assembling, QualityChecked), (Assembling, Failed),
    (QualityChecked, Published),
    (NeedsReview, Verified), (NeedsReview, Planned),
    (Failed, Verifying), (Failed, Planned),
    (Cancelled, Planned)}

  /** The legal moves are the edges, and there is no move out of `Published`. */
  lemma MovesAreTheEdges(from: JobState, to: JobState)
    ensures from.MayTransitionTo(to) <==> (from, to) in EDGES
    ensures !Published.MayTransitionTo(to)
  {
  }

  /** A walk along the edges that never plans again, fails or is cancelled. */
  ghost predicate Onward(path: seq<JobState>) {
    && path != []
    && (forall i :: 0 <= i < |path| ==> path[i] !in {Planned, Failed, Cancelled})
    && (forall i :: 0 <= i < |path| - 1 ==> path[i].MayTransitionTo(path[i + 1]))
  }

  ghost predicate LeadsTo(path: seq<JobState>, from: JobState, to: JobState) {
    Onward(path) && path[0] == from && path[|path| - 1] == to
  }

  /** A state counts as rendered exactly when it is reached from `Rendered` without planning again or stopping. */
  lemma HasRenderedMeansReached(to: JobState)
    ensures to.HasRendered() <==> exists path :: LeadsTo(path, Rendered, to)
  {
    if to.HasRendered() {
      var path := RenderedPath(to);
      assert LeadsTo(path, Rendered, to);
    }
    forall path | LeadsTo(path, Rendered, to) ensures to.HasRendered() {
      StaysRendered(path, |path| - 1);
    }
  }

  function RenderedPath(to: JobState): seq<JobState> {
    match to
    case Verifying => [Rendered, Verifying]
    case Verified => [Rendered, Verifying, Verified]
    case NeedsReview => [Rendered, Verifying, NeedsReview]
    case Assembling => [Rendered, Verifying, Verified, Assembling]
    case QualityChecked => [Rendered, Verifying, Verified, Assembling, QualityChecked]
    case Published => [Rendered, Verifying, Verified, Assembling, QualityChecked, Published]
    case _ => [Rendered]
  }

  lemma {:induction false} StaysRendered(path: seq<JobState>, i: nat)
    requires i < |path| && Onward(path) && path[0].Rendered?
    ensures path[i].HasRendered()
  {
    if i > 0 {
      StaysRendered(path, i - 1);
      assert path[i - 1].MayTransitionTo(path[i - 1 + 1]);
    }
  }

  // ----- operations on an owned document -----

  method OpenAttempt(jobId: string, lessonDigest: string, planHash: string, previous: Option<JobDocument>)
    returns (r: Result<JobDocument, JobStateError>)
    ensures r.Failure? <==> previous.Some? && previous.value.buildAttempt == 0xFFFF_FFFF
    ensures r.Failure? ==> r.error == AttemptOverflow
    ensures r.Success? ==> Opened(r.value, previous)
    ensures r.Success? ==> (r.value.jobId, r.value.lessonDigest, r.value.planHash) == (jobId, lessonDigest, planHash)
  {
    var buildAttempt: Attempt := 1;
    var abandoned: Option<AbandonedAttempt> := None;
    if previous.Some? {
      if previous.value.buildAttempt == 0xFFFF_FFFF {
        return Failure(AttemptOverflow);
      }
      buildAttempt := previous.value.buildAttempt + 1;
      abandoned := Some(AbandonedAttempt(previous.value.buildAttempt, previous.value.state));
    }
    return Success(JobDocument(jobId, buildAttempt, Created, Created, abandoned, lessonDigest, planHash,
      map[], None, PrivatePreview));
  }

  /** A freshly opened attempt: nothing rendered, nothing claimed, the one before it retained. */
  ghost predicate Opened(d: JobDocument, previous: Option<JobDocument>) {
    && d.state == Created && d.lastSuccessfulState == Created
    && d.segments == map[] && d.previewPackage == None && d.releaseStatus == PrivatePreview
    && (previous.None? ==> d.buildAttempt == 1 && d.abandonedAttempt == None)
    && (previous.Some? ==>
          d.buildAttempt == previous.value.buildAttempt + 1 &&
          d.abandonedAttempt == Some(AbandonedAttempt(previous.value.buildAttempt, previous.value.state)))
  }

  method Transition(document: JobDocument, next: JobState) returns (r: Result<JobDocument, JobStateError>)
    ensures r == Moved(document, next)
  {
    var self := document;
    if !self.state.MayTransitionTo(next) {
      return Failure(IllegalTransition(self.state, next));
    }
    if next == Published && self.releaseStatus != ProductionRelease {
      return Failure(PrivateProfileCannotClaimProduction);
    }
    if next != Failed && next != Cancelled {
      self := self.(lastSuccessfulState := next);
    }
    self := self.(state := next);
    if next == Planned {
      self := self.(previewPackage := None);
    }
    return Success(self);
  }

  /** The value `transition` computes. */
  function Moved(d: JobDocument, next: JobState): Result<JobDocument, JobStateError> {
    if !d.state.MayTransitionTo(next) then Failure(IllegalTransition(d.state, next))
    else if next == Published && d.releaseStatus == PrivatePreview then Failure(PrivateProfileCannotClaimProduction)
    else Success(d.(
      state := next,
      lastSuccessfulState := if next.Failed? || next.Cancelled? then d.lastSuccessfulState else next,
      previewPackage := if next.Planned? then None else d.previewPackage))
  }

  function WithSegment(d: JobDocument, segmentId: string, status: SegmentStatus): JobDocument {
    d.(segments := d.segments[segmentId := status])
  }

  function WithPreviewPackage(d: JobDocument, package: string): JobDocument {
    d.(previewPackage := Some(package))
  }

  // ----- runs -----

  datatype Action = Move(next: JobState) | Segment(id: string, status: SegmentStatus) | Preview(package: string)

  /** One accepted step; a preview is recorded only once every segment has rendered. */
  ghost predicate Step(d: JobDocument, a: Action, d': JobDocument) {
    match a
    case Move(next) => Moved(d, next) == Success(d')
    case Segment(id, status) => d' == WithSegment(d, id, status)
    case Preview(package) => d.state.HasRendered() && d' == WithPreviewPackage(d, package)
  }

  /** `documents[i]` becomes `documents[i + 1]` by `actions[i]`. */
  ghost predicate IsRun(documents: seq<JobDocument>, actions: seq<Action>) {
    && |documents| == |actions| + 1
    && forall i :: 0 <= i < |actions| ==> Step(documents[i], actions[i], documents[i + 1])
  }

  /** The invariant of a document. */
  ghost predicate Sound(d: JobDocument) {
    && !d.lastSuccessfulState.Failed? && !d.lastSuccessfulState.Cancelled?
    && (!d.state.Failed? && !d.state.Cancelled? ==> d.lastSuccessfulState == d.state)
    && (d.previewPackage.Some? ==> d.lastSuccessfulState.HasRendered())
  }

  lemma StepKeepsSound(d: JobDocument, a: Action, d': JobDocument)
    requires Sound(d) && Step(d, a, d')
    ensures Sound(d') && d'.releaseStatus == d.releaseStatus && d'.jobId == d.jobId && d'.buildAttempt == d.buildAttempt
    ensures d.releaseStatus == PrivatePreview && !d.state.Published? ==> !d'.state.Published?
  {
  }

  /**
   Whatever an opened attempt goes through, its last success is a success, agrees with its
   state, backs any preview it carries, and never becomes a publication.
   */
  lemma {:induction false} EveryAttemptIsSound(documents: seq<JobDocument>, actions: seq<Action>, previous: Option<JobDocument>, i: nat)
    requires IsRun(documents, actions) && i < |documents| && Opened(documents[0], previous)
    ensures Sound(documents[i]) && documents[i].releaseStatus == PrivatePreview && !documents[i].state.Published?
    ensures documents[i].buildAttempt == documents[0].buildAttempt
  {
    if i > 0 {
      EveryAttemptIsSound(documents, actions, previous, i - 1);
      StepKeepsSound(documents[i - 1], actions[i - 1], documents[i]);
    }
  }

  /** Neither a move off its plan nor a preview: what may happen without touching the preview. */
  predicate KeepsPreview(a: Action) {
    !a.Preview? && a != Move(Planned)
  }

  /** A preview lasts until another replaces it or the run plans again, and planning clears it. */
  lemma {:induction false} PreviewLasts(documents: seq<JobDocument>, actions: seq<Action>, i: nat, j: nat)
    requires IsRun(documents, actions) && i <= j < |documents|
    requires forall k :: i <= k < j ==> KeepsPreview(actions[k])
    ensures documents[j].previewPackage == documents[i].previewPackage
    ensures j < |actions| && actions[j] == Move(Planned) ==> documents[j + 1].previewPackage == None
    ensures j < |actions| && actions[j].Preview? ==> documents[j + 1] == documents[j].(previewPackage := Some(actions[j].package))
  {
    if i < j {
      PreviewLasts(documents, actions, i, j - 1);
      assert Step(documents[j - 1], actions[j - 1], documents[j]);
    }
    if j < |actions| {
      assert Step(documents[j], actions[j], documents[j + 1]);
    }
  }

  /** What a segment resolved to lasts until it is recorded again; the attempt's own fields last for good. */
  lemma {:induction false} RecordsLast(documents: seq<JobDocument>, actions: seq<Action>, i: nat, j: nat, id: string)
    requires IsRun(documents, actions) && i <= j < |documents|
    requires forall k :: i <= k < j ==> !(actions[k].Segment? && actions[k].id == id)
    ensures id in documents[j].segments <==> id in documents[i].segments
    ensures id in documents[i].segments ==> documents[j].segments[id] == documents[i].segments[id]
    ensures SameAttempt(documents[i], documents[j])
    ensures j < |actions| && actions[j].Segment? ==>
              documents[j + 1] == documents[j].(segments := documents[j].segments[actions[j].id := actions[j].status])
  {
    if j < |actions| {
      assert Step(documents[j], actions[j], documents[j + 1]);
    }
    if i < j {
      RecordsLast(documents, actions, i, j - 1, id);
      assert Step(documents[j - 1], actions[j - 1], documents[j]);
    }
  }

  ghost predicate SameAttempt(a: JobDocument, b: JobDocument) {
    && a.jobId == b.jobId && a.buildAttempt == b.buildAttempt && a.abandonedAttempt == b.abandonedAttempt
    && a.lessonDigest == b.lessonDigest && a.planHash == b.planHash && a.releaseStatus == b.releaseStatus
  }

  /** A move is refused exactly off the edges, and on the last edge for a private preview. */
  lemma RefusedMoves(d: JobDocument, next: JobState)
    ensures Moved(d, next).Success? <==> (d.state, next) in EDGES && (next.Published? ==> d.releaseStatus == ProductionRelease)
    ensures (d.state, next) !in EDGES ==> Moved(d, next) == Failure(IllegalTransition(d.state, next))
    ensures (d.state, next) in EDGES && Moved(d, next).Failure? ==> Moved(d, next) == Failure(PrivateProfileCannotClaimProduction)
  {
    MovesAreTheEdges(d.state, next);
  }

  // ----- the road to publication -----

  const MILESTONES := [Rendering, Verifying, Verified, Assembling, QualityChecked]

  /** The last index at or before `i` whose state is `Planned`, or -1. */
  ghost function LastPlanned(documents: seq<JobDocument>, i: nat): (p: int)
    requires i < |documents|
    ensures -1 <= p <= i && (p >= 0 ==> documents[p].state.Planned?)
    ensures forall j :: p < j <= i ==> !documents[j].state.Planned?
  {
    if documents[i].state.Planned? then i else if i == 0 then -1 else LastPlanned(documents, i - 1)
  }

  /** These indices visit the first milestones, in order, after `p` and no later than `i`. */
  ghost predicate Visits(documents: seq<JobDocument>, p: int, at: seq<nat>, i: nat)
    requires i < |documents|
  {
    && |at| <= 5
    && (forall k :: 0 <= k < |at| ==> p < at[k] <= i && documents[at[k]].state == MILESTONES[k])
    && (forall k, l :: 0 <= k < l < |at| ==> at[k] < at[l])
  }

  /** How many milestones a document in this state has behind it. */
  function Passed(s: JobState): nat {
    match s
    case Created | Validated | Planned => 0
    case Rendering | Rendered | Failed | Cancelled => 1
    case Verifying | NeedsReview => 2
    case Verified => 3
    case Assembling => 4
    case QualityChecked | Published => 5
  }

  /** From its last plan on, a run that started at `Created` has visited the milestones of its state in order. */
  lemma {:induction false} MilestonesInOrder(documents: seq<JobDocument>, actions: seq<Action>, i: nat) returns (at: seq<nat>)
    requires IsRun(documents, actions) && i < |documents| && documents[0].state.Created?
    ensures Passed(documents[i].state) > 0 ==> LastPlanned(documents, i) >= 0
    ensures |at| >= Passed(documents[i].state)
    ensures Visits(documents, LastPlanned(documents, i), at, i)
  {
    at := [];
    if i > 0 && !documents[i].state.Planned? {
      var s, s' := documents[i - 1].state, documents[i].state;
      assert Step(documents[i - 1], actions[i - 1], documents[i]);
      assert s == s' || s.MayTransitionTo(s');
      at := MilestonesInOrder(documents, actions, i - 1);
      if |at| < Passed(s') {
        at := at + [i];
      }
    }
  }

  /** Every published run rendered, verified, assembled and was quality checked, in that order, after its last plan. */
  lemma PublishedRunsVisitEveryMilestone(documents: seq<JobDocument>, actions: seq<Action>)
    requires IsRun(documents, actions) && documents[0].state.Created?
    requires documents[|actions|].state.Published?
    ensures LastPlanned(documents, |actions|) >= 0
    ensures exists at :: |at| == 5 && Visits(documents, LastPlanned(documents, |actions|), at, |actions|)
  {
    var at := MilestonesInOrder(documents, actions, |actions|);
  }

  /** Every production attempt can be published: some run of it is. */
  lemma ProductionCanPublish(start: JobDocument) returns (documents: seq<JobDocument>, actions: seq<Action>)
    requires start.state.Created? && start.releaseStatus == ProductionRelease && start.previewPackage == None
    ensures IsRun(documents, actions) && documents[0] == start && documents[|actions|].state.Published?
  {
    var states := [Validated, Planned, Rendering, Rendered, Verifying, Verified, Assembling, QualityChecked, Published];
    documents, actions := [start], [];
    for k := 0 to 9
      invariant |actions| == k && |documents| == k + 1 && IsRun(documents, actions) && documents[0] == start
      invariant documents[k].state == if k == 0 then Created else states[k - 1]
      invariant documents[k].previewPackage == None && documents[k].releaseStatus == ProductionRelease
    {
      documents := documents + [AtState(documents[k], states[k])];
      actions := actions + [Move(states[k])];
    }
  }

  // ----- the exception: verification after a failed render -----

  /** `Rendering` went straight to `Failed` after the last plan. */
  ghost predicate RenderFailed(documents: seq<JobDocument>, i: nat)
    requires i < |documents|
  {
    exists j :: LastPlanned(documents, i) < j < i && documents[j].state.Rendering? && documents[j + 1].state.Failed?
  }

  ghost predicate PassedRendered(documents: seq<JobDocument>, i: nat)
    requires i < |documents|
  {
    exists j :: LastPlanned(documents, i) < j <= i && documents[j].state.Rendered?
  }

  /**
   A run past rendering visited `Rendered` after its last plan if and only if no render
   failed there: a failed render is the one road around `Rendered`.
   */
  lemma {:induction false} RenderedUnlessRenderFailed(documents: seq<JobDocument>, actions: seq<Action>, i: nat)
    requires IsRun(documents, actions) && i < |documents| && documents[0].state.Created?
    ensures Passed(documents[i].state) >= 1 && !documents[i].state.Rendering? && !documents[i].state.Cancelled? ==>
      (PassedRendered(documents, i) <==> !RenderFailed(documents, i))
    ensures Passed(documents[i].state) == 0 || documents[i].state.Rendering? || documents[i].state.Cancelled? ==>
      !PassedRendered(documents, i) && !RenderFailed(documents, i)
  {
    if i > 0 && !documents[i].state.Planned? {
      var s, s' := documents[i - 1].state, documents[i].state;
      assert Step(documents[i - 1], actions[i - 1], documents[i]);
      assert s == s' || s.MayTransitionTo(s');
      RenderedUnlessRenderFailed(documents, actions, i - 1);
      assert PassedRendered(documents, i) <==> PassedRendered(documents, i - 1) || s'.Rendered?;
      assert RenderFailed(documents, i) <==> RenderFailed(documents, i - 1) || (s.Rendering? && s'.Failed?) by {
        if s.Rendering? && s'.Failed? { assert LastPlanned(documents, i) < i - 1; }
      }
    }
  }

  function AtState(d: JobDocument, s: JobState): JobDocument {
    d.(state := s, lastSuccessfulState := if s.Failed? || s.Cancelled? then d.lastSuccessfulState else s)
  }

  /** A verified run need not have passed through `Rendered`: a failed render may be sent to verification. */
  lemma VerifiedWithoutRendered(start: JobDocument) returns (documents: seq<JobDocument>, actions: seq<Action>)
    requires Opened(start, None)
    ensures IsRun(documents, actions) && documents[0] == start && documents[|actions|].state.Verified?
    ensures forall d :: d in documents ==> !d.state.Rendered?
  {
    var states := [Validated, Planned, Rendering, Failed, Verifying, Verified];
    documents, actions := [start], [];
    for k := 0 to 6
      invariant |actions| == k && |documents| == k + 1 && IsRun(documents, actions) && documents[0] == start
      invariant documents[k].state == if k == 0 then Created else states[k - 1]
      invariant documents[k].previewPackage == None
      invariant forall d :: d in documents ==> !d.state.Rendered?
    {
      documents := documents + [AtState(documents[k], states[k])];
      actions := actions + [Move(states[k])];
    }
  }
}
