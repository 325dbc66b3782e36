/**
 The worker process: one session, one model load per lifetime, and the loop that
 answers frames. Loading and rendering are foreign; each is an outcome per frame.
 */
module Worker {
  import opened Protocol
  import opened Text
  import opened Wrappers

  /** A frame `read_request` accepted. */
  datatype Frame =
    | Initialize(requestId: string, stagingRoot: string, threads: nat, workerBundleHash: string)
    | Capabilities(requestId: string)
    | Health(requestId: string)
    | Synthesize(requestId: string, text: string, voice: string, style: string, seed: nat, take: nat, output: string)
    | Cancel(requestId: string, activeRequestId: string)
    | Shutdown(requestId: string)

  /** A frame refused before dispatch, with the identity to answer to if one was recovered. */
  datatype FrameError = FrameError(requestId: Option<string>)

  datatype Backend = Backend(modelRevision: string, codecRevision: string, conditioning: map<string, string>, sampleRate: nat)

  /** What the file system and the speech backend did for one frame; `None` is a refusal. */
  datatype Outcome = Outcome(staging: Option<nat>, load: Option<Backend>, render: Option<nat>)

  datatype FailureCode = InvalidRequest | InitializationFailed | SynthesisFailed | Internal

  datatype Response =
    | Initialized(requestId: string, modelRevision: string, tokenizerRevision: string, workerBundleHash: string,
                  conditioning: map<string, string>)
    | CapabilityReport(requestId: string, voices: seq<string>, styles: seq<string>)
    | HealthReport(requestId: string, ready: bool, modelLoaded: bool)
    | SynthesisSucceeded(requestId: string, sampleRate: nat, frames: nat, modelRevision: string, codecRevision: string,
                         workerBundleHash: string, voiceConditioningHash: string, voice: string)
    | Cancelled(requestId: string, activeRequestId: string)
    | ShutDown(requestId: string)
    | Failed(requestId: string, code: FailureCode, recoverable: bool)

  const CALM_EXPLANATORY_STYLE := "calm_explanatory"

  datatype SessionState = SessionState(backend: Option<Backend>, workerBundleHash: string, staging: Option<nat>) {
    /** The session holds a model exactly when it holds a staging root. */
    predicate Consistent() {
      backend.Some? <==> staging.Some?
    }
  }

  const FRESH := SessionState(None, "", None)

  // ----- the specification of one answer -----

  /** `_render`: the voice and style are checked before anything foreign runs. */
  function Render(backend: Backend, voice: string, style: string, foreign: Option<nat>): Option<nat> {
    if voice in backend.conditioning && style == CALM_EXPLANATORY_STYLE then foreign else None
  }

  /** The state after a frame: only a successful first `initialize` changes it, and it changes all of it. */
  function After(s: SessionState, frame: Frame, o: Outcome): SessionState {
    if frame.Initialize? && s.backend.None? && o.staging.Some? && o.load.Some?
    then SessionState(o.load, frame.workerBundleHash, o.staging)
    else s
  }

  function Answer(s: SessionState, frame: Frame, o: Outcome): Response {
    var id := frame.requestId;
    match frame
    case Initialize(_, _, _, hash) =>
      if s.backend.Some? then Failed(id, Internal, false)
      else if o.staging.None? || o.load.None? then Failed(id, InitializationFailed, false)
      else Initialized(id, o.load.value.modelRevision, o.load.value.codecRevision, hash, o.load.value.conditioning)
    case Capabilities(_) =>
      if s.backend.Some? then CapabilityReport(id, SortedKeys(s.backend.value.conditioning.Keys), [CALM_EXPLANATORY_STYLE])
      else CapabilityReport(id, [], [])
    case Health(_) => HealthReport(id, s.backend.Some?, s.backend.Some?)
    case Synthesize(_, _, voice, style, _, _, _) =>
      if s.backend.None? || s.staging.None? then Failed(id, InitializationFailed, false)
      else
        var b := s.backend.value;
        var frames := Render(b, voice, style, o.render);
        if frames.None? then Failed(id, SynthesisFailed, true)
        else SynthesisSucceeded(id, b.sampleRate, frames.value, b.modelRevision, b.codecRevision, s.workerBundleHash,
                                if voice in b.conditioning then b.conditioning[voice] else "", voice)
    case Cancel(_, active) => Cancelled(id, active)
    case Shutdown(_) => ShutDown(id)
  }

  // ----- the session and the loop -----

  class Session {
    var backend: Option<Backend>
    var workerBundleHash: string
    var staging: Option<nat>

    ghost function State(): SessionState
      reads this
    {
      SessionState(backend, workerBundleHash, staging)
    }

    constructor ()
      ensures State() == FRESH
    {
      backend, workerBundleHash, staging := None, "", None;
    }

    method Respond(frame: Frame, o: Outcome) returns (response: Response)
      modifies this
      ensures response == Answer(old(State()), frame, o)
      ensures State() == After(old(State()), frame, o)
    {
      var id := frame.requestId;
      match frame {
        case Initialize(_, _, _, hash) =>
          if backend.Some? {
            return Failed(id, Internal, false);
          }
          var root := o.staging;
          if root.None? {
            return Failed(id, InitializationFailed, false);
          }
          if o.load.None? {
            return Failed(id, InitializationFailed, false);
          }
          backend := o.load;
          workerBundleHash := hash;
          staging := root;
          response := Initialized(id, backend.value.modelRevision, backend.value.codecRevision, hash, backend.value.conditioning);
        case Capabilities(_) =>
          response := if backend.Some?
            then CapabilityReport(id, SortedKeys(backend.value.conditioning.Keys), [CALM_EXPLANATORY_STYLE])
            else CapabilityReport(id, [], []);
        case Health(_) =>
          response := HealthReport(id, backend.Some?, backend.Some?);
        case Synthesize(_, _, voice, style, _, _, _) =>
          if backend.None? || staging.None? {
            return Failed(id, InitializationFailed, false);
          }
          var frames := Render(backend.value, voice, style, o.render);
          if frames.None? {
            return Failed(id, SynthesisFailed, true);
          }
          response := SynthesisSucceeded(id, backend.value.sampleRate, frames.value, backend.value.modelRevision,
            backend.value.codecRevision, workerBundleHash, backend.value.conditioning[voice], voice);
        case Cancel(_, active) =>
          response := Cancelled(id, active);
        case Shutdown(_) =>
          response := ShutDown(id);
      }
    }
  }

  type Read = Result<seq<byte>, FrameTooLong>
  type Parser = seq<byte> -> Result<Frame, FrameError>

  /** `request_id or "unknown"`: an empty identity counts as none. */
  function Refusal(error: FrameError): Response {
    var recovered := error.requestId.Some? && error.requestId.value != "";
    Failed(if recovered then error.requestId.value else "unknown", InvalidRequest, false)
  }

  /** The frame a line holds, if it holds an accepted one. */
  function FrameOf(arrival: Read, parse: Parser): Option<Frame> {
    if arrival.Success? && arrival.value != [] && parse(arrival.value).Success? then Some(parse(arrival.value).value) else None
  }

  /** Nothing for an empty line, and one response for every other. */
  function Reply(arrival: Read, s: SessionState, parse: Parser, o: Outcome): seq<Response> {
    match arrival
    case Failure(_) => [Refusal(FrameError(None))]
    case Success(line) =>
      if line == [] then []
      else
        match parse(line)
        case Failure(error) => [Refusal(error)]
        case Success(frame) => [Answer(s, frame, o)]
  }

  function Next(arrival: Read, s: SessionState, parse: Parser, o: Outcome): SessionState {
    var frame := FrameOf(arrival, parse);
    if frame.Some? then After(s, frame.value, o) else s
  }

  predicate Stops(arrival: Read, parse: Parser) {
    var frame := FrameOf(arrival, parse);
    frame.Some? && frame.value.Shutdown?
  }

  /** Everything a session in state `s` sends for these lines; `n` counts the lines before them. */
  function Transcript(arrivals: seq<Read>, s: SessionState, parse: Parser, outcomes: nat -> Outcome, n: nat): seq<Response> {
    if arrivals == [] then []
    else
      Reply(arrivals[0], s, parse, outcomes(n)) +
      (if Stops(arrivals[0], parse) then []
       else Transcript(arrivals[1..], Next(arrivals[0], s, parse, outcomes(n)), parse, outcomes, n + 1))
  }

  /** `main`: serves frames until shutdown or the end of input. */
  method Serve(stream: ByteStream, parse: Parser, outcomes: nat -> Outcome) returns (sent: seq<Response>)
    modifies stream
    ensures sent == Transcript(ReadAll(old(stream.unread)), FRESH, parse, outcomes, 0)
  {
    sent := [];
    var session := new Session();
    var n := 0;
    ghost var all := Transcript(ReadAll(stream.unread), FRESH, parse, outcomes, 0);
    var stopped := false;
    while !stopped
      invariant fresh(session)
      invariant stopped ==> sent == all
      invariant !stopped ==> sent + Transcript(ReadAll(stream.unread), session.State(), parse, outcomes, n) == all
      decreases !stopped, |stream.unread|
    {
      var more, replies := ServeLine(stream, session, parse, outcomes(n));
      Associate(sent, replies, Transcript(ReadAll(stream.unread), session.State(), parse, outcomes, n + 1));
      sent := sent + replies;
      n := n + 1;
      stopped := !more;
    }
  }

  /** One turn of the loop: the responses it writes, and whether it goes on. */
  method ServeLine(stream: ByteStream, session: Session, parse: Parser, o: Outcome)
    returns (more: bool, replies: seq<Response>)
    modifies stream, session
    ensures old(stream.unread) == [] ==> !more && replies == []
    ensures old(stream.unread) != [] ==>
      var arrivals := ReadAll(old(stream.unread));
      && replies == Reply(arrivals[0], old(session.State()), parse, o)
      && session.State() == Next(arrivals[0], old(session.State()), parse, o)
      && more == !Stops(arrivals[0], parse)
      && ReadAll(stream.unread) == arrivals[1..]
      && |stream.unread| < |old(stream.unread)|
  {
    var line := ReadLine(stream);
    if line.Failure? {
      return true, [Refusal(FrameError(None))];
    }
    if line.value.None? {
      return false, [];
    }
    if line.value.value == [] {
      return true, [];
    }
    var frame := parse(line.value.value);
    if frame.Failure? {
      return true, [Refusal(frame.error)];
    }
    var response := session.Respond(frame.value, o);
    return !response.ShutDown?, [response];
  }

  // ----- what each answer means -----

  /** What a session in state `s` says it can render. */
  function Report(s: SessionState, requestId: string): Response
    ensures Report(s, requestId).CapabilityReport?
  {
    Answer(s, Capabilities(requestId), Outcome(None, None, None))
  }

  /** The report lists exactly the voices the model holds, in order, and the one style, once a model is loaded. */
  lemma ReportIsExact(s: SessionState, requestId: string)
    ensures var r := Report(s, requestId);
            && Ascending(r.voices)
            && (forall v :: v in r.voices <==> s.backend.Some? && v in s.backend.value.conditioning)
            && (forall style :: style in r.styles <==> s.backend.Some? && style == "calm_explanatory")
  {
  }

  /**
   A request to render succeeds exactly when a model is loaded, its voice and style are ones
   the session reports, and the render itself gave frames; the answer then carries those frames.
   */
  lemma SynthesisSucceedsExactly(s: SessionState, frame: Frame, o: Outcome)
    requires s.Consistent() && frame.Synthesize?
    ensures var r, report := Answer(s, frame, o), Report(s, frame.requestId);
            && (r.SynthesisSucceeded? <==>
                  s.backend.Some? && frame.voice in report.voices && frame.style in report.styles && o.render.Some?)
            && (r.SynthesisSucceeded? ==> r.frames == o.render.value && r.voice == frame.voice && RenderedBy(r, s))
            && (s.backend.None? ==> r == Failed(frame.requestId, InitializationFailed, false))
            && (s.backend.Some? && !r.SynthesisSucceeded? ==> r == Failed(frame.requestId, SynthesisFailed, true))
  {
    ReportIsExact(s, frame.requestId);
  }

  /** A session initializes exactly once a staging root and a model are there and none was loaded before. */
  lemma InitializesExactly(s: SessionState, frame: Frame, o: Outcome)
    requires s.Consistent() && frame.Initialize?
    ensures var r, after := Answer(s, frame, o), After(s, frame, o);
            && (r.Initialized? <==> s.backend.None? && o.staging.Some? && o.load.Some?)
            && (r.Initialized? ==> after == SessionState(o.load, frame.workerBundleHash, o.staging) && AnnouncedAs(r, after))
            && (!r.Initialized? ==> after == s)
            && (s.backend.Some? ==> r == Failed(frame.requestId, Internal, false))
            && (s.backend.None? && !r.Initialized? ==> r == Failed(frame.requestId, InitializationFailed, false))
  {
  }

  /** The announcement names what the session now holds. */
  ghost predicate AnnouncedAs(r: Response, s: SessionState) {
    && r.Initialized? && s.backend.Some?
    && r.workerBundleHash == s.workerBundleHash
    && r.modelRevision == s.backend.value.modelRevision
    && r.tokenizerRevision == s.backend.value.codecRevision
    && r.conditioning == s.backend.value.conditioning
  }

  /** Every other request is answered in kind, and leaves the session as it was. */
  lemma OtherAnswers(s: SessionState, frame: Frame, o: Outcome)
    requires s.Consistent() && !frame.Initialize? && !frame.Synthesize?
    ensures After(s, frame, o) == s && !Answer(s, frame, o).Failed?
    ensures frame.Health? ==> Answer(s, frame, o) == HealthReport(frame.requestId, s.backend.Some?, s.staging.Some?)
    ensures frame.Cancel? ==> Answer(s, frame, o) == Cancelled(frame.requestId, frame.activeRequestId)
    ensures frame.Shutdown? <==> Answer(s, frame, o).ShutDown?
  {
  }

  /** A line that holds no frame is refused as invalid, for good, and changes nothing. */
  lemma RefusedLines(arrival: Read, s: SessionState, parse: Parser, o: Outcome)
    requires arrival.Failure? || (arrival.value != [] && parse(arrival.value).Failure?)
    ensures Next(arrival, s, parse, o) == s && !Stops(arrival, parse)
    ensures Reply(arrival, s, parse, o) == [Failed(Correlation(arrival, parse), InvalidRequest, false)]
  {
  }

  /** The loop stops at a line exactly when it answers it with a shutdown. */
  lemma StopsAtShutdown(arrival: Read, s: SessionState, parse: Parser, o: Outcome)
    ensures Stops(arrival, parse) <==> exists r :: r in Reply(arrival, s, parse, o) && r.ShutDown?
  {
    var replies := Reply(arrival, s, parse, o);
    if replies != [] { assert replies[0] in replies; }
  }

  // ----- properties of every run -----

  /** The lines that are owed an answer: the non-empty ones up to and including a shutdown. */
  function Owed(arrivals: seq<Read>, parse: Parser): seq<Read> {
    if arrivals == [] then []
    else if arrivals[0] == Success([]) then Owed(arrivals[1..], parse)
    else if Stops(arrivals[0], parse) then [arrivals[0]]
    else [arrivals[0]] + Owed(arrivals[1..], parse)
  }

  /** The identity an answer to this line must carry. */
  function Correlation(arrival: Read, parse: Parser): string {
    match arrival
    case Failure(_) => "unknown"
    case Success(line) =>
      match parse(line)
      case Failure(error) => if error.requestId.None? || error.requestId.value == "" then "unknown" else error.requestId.value
      case Success(frame) => frame.requestId
  }

  /** Every line that is owed an answer gets exactly one, in order and under its own identity. */
  lemma {:induction false} OneAnswerPerLine(arrivals: seq<Read>, s: SessionState, parse: Parser, outcomes: nat -> Outcome, n: nat)
    ensures var sent := Transcript(arrivals, s, parse, outcomes, n);
            var owed := Owed(arrivals, parse);
            |sent| == |owed| && forall i :: 0 <= i < |sent| ==> sent[i].requestId == Correlation(owed[i], parse)
    decreases |arrivals|
  {
    if arrivals != [] && !Stops(arrivals[0], parse) {
      OneAnswerPerLine(arrivals[1..], Next(arrivals[0], s, parse, outcomes(n)), parse, outcomes, n + 1);
    }
  }

  /** Nothing follows a shutdown. */
  lemma {:induction false} ShutdownIsLast(arrivals: seq<Read>, s: SessionState, parse: Parser, outcomes: nat -> Outcome, n: nat)
    ensures var sent := Transcript(arrivals, s, parse, outcomes, n);
            && (forall i :: 0 <= i < |sent| - 1 ==> !sent[i].ShutDown?)
            && ((exists i :: 0 <= i < |arrivals| && Stops(arrivals[i], parse)) <==> sent != [] && sent[|sent| - 1].ShutDown?)
    decreases |arrivals|
  {
    if arrivals != [] {
      var o, s' := outcomes(n), Next(arrivals[0], s, parse, outcomes(n));
      StopsAtShutdown(arrivals[0], s, parse, o);
      var replies := Reply(arrivals[0], s, parse, o);
      if !Stops(arrivals[0], parse) {
        ShutdownIsLast(arrivals[1..], s', parse, outcomes, n + 1);
        assert forall i :: 1 <= i < |arrivals| ==> arrivals[i] == arrivals[1..][i - 1];
        assert forall r :: r in replies ==> !r.ShutDown?;
      }
    }
  }

  /** A model is held exactly when a staging root is, at every frame boundary. */
  lemma StaysConsistent(arrival: Read, s: SessionState, parse: Parser, o: Outcome)
    requires s.Consistent()
    ensures Next(arrival, s, parse, o).Consistent()
    ensures s.backend.Some? ==> Next(arrival, s, parse, o) == s
    ensures s.backend.None? ==> (Next(arrival, s, parse, o).backend.Some? <==>
              exists r :: r in Reply(arrival, s, parse, o) && r.Initialized?)
  {
    var r := Reply(arrival, s, parse, o);
    if r != [] { assert r[0] in r; }
  }

  /** The response names the identities of this session's one load. */
  ghost predicate RenderedBy(r: Response, s: SessionState) {
    && r.SynthesisSucceeded? && s.backend.Some?
    && r.workerBundleHash == s.workerBundleHash
    && r.modelRevision == s.backend.value.modelRevision
    && r.codecRevision == s.backend.value.codecRevision
    && r.sampleRate == s.backend.value.sampleRate
    && r.voice in s.backend.value.conditioning
    && r.voiceConditioningHash == s.backend.value.conditioning[r.voice]
  }

  /** The success carries exactly what the `initialized` response announced. */
  ghost predicate Announced(r: Response, initialized: Response) {
    && r.SynthesisSucceeded? && initialized.Initialized?
    && r.workerBundleHash == initialized.workerBundleHash
    && r.modelRevision == initialized.modelRevision
    && r.codecRevision == initialized.tokenizerRevision
    && r.voice in initialized.conditioning
    && r.voiceConditioningHash == initialized.conditioning[r.voice]
  }

  /** Once loaded, a session never initializes again and renders only as itself. */
  lemma {:induction false} LoadedRuns(arrivals: seq<Read>, s: SessionState, parse: Parser, outcomes: nat -> Outcome, n: nat)
    requires s.backend.Some?
    ensures forall r :: r in Transcript(arrivals, s, parse, outcomes, n) ==>
      !r.Initialized? && (r.SynthesisSucceeded? ==> RenderedBy(r, s))
    decreases |arrivals|
  {
    if arrivals != [] && !Stops(arrivals[0], parse) {
      assert Next(arrivals[0], s, parse, outcomes(n)) == s;
      LoadedRuns(arrivals[1..], s, parse, outcomes, n + 1);
    }
  }

  ghost predicate SafeTranscript(sent: seq<Response>) {
    && (forall i, j :: 0 <= i < j < |sent| ==> !(sent[i].Initialized? && sent[j].Initialized?))
    && (forall j :: 0 <= j < |sent| && sent[j].SynthesisSucceeded? ==> exists i :: 0 <= i < j && Announced(sent[j], sent[i]))
  }

  /**
   Safety of every run: at most one `initialized` is ever sent, and every successful
   synthesis follows it and carries the identities it announced.
   */
  lemma {:induction false} EveryRunIsSafe(arrivals: seq<Read>, s: SessionState, parse: Parser, outcomes: nat -> Outcome, n: nat)
    requires s.backend.None? && s.Consistent()
    ensures SafeTranscript(Transcript(arrivals, s, parse, outcomes, n))
    decreases |arrivals|
  {
    if arrivals != [] && !Stops(arrivals[0], parse) {
      var s' := Next(arrivals[0], s, parse, outcomes(n));
      var replies := Reply(arrivals[0], s, parse, outcomes(n));
      var rest := Transcript(arrivals[1..], s', parse, outcomes, n + 1);
      StaysConsistent(arrivals[0], s, parse, outcomes(n));
      if s'.backend.None? {
        EveryRunIsSafe(arrivals[1..], s', parse, outcomes, n + 1);
        QuietPrefix(replies, rest);
      } else {
        LoadedRuns(arrivals[1..], s', parse, outcomes, n + 1);
        AnnouncedFirst(replies[0], rest, s');
      }
    }
  }

  /** A response that neither initializes nor renders can be put before a safe transcript. */
  lemma QuietPrefix(replies: seq<Response>, rest: seq<Response>)
    requires |replies| <= 1 && SafeTranscript(rest)
    requires forall r :: r in replies ==> !r.Initialized? && !r.SynthesisSucceeded?
    ensures SafeTranscript(replies + rest)
  {
    var sent := replies + rest;
    forall j | 0 <= j < |sent| && sent[j].SynthesisSucceeded? ensures exists i :: 0 <= i < j && Announced(sent[j], sent[i]) {
      assert sent[j] == rest[j - |replies|];
      var i :| 0 <= i < j - |replies| && Announced(rest[j - |replies|], rest[i]);
      assert sent[i + |replies|] == rest[i];
    }
  }

  lemma AnnouncedFirst(initialized: Response, rest: seq<Response>, s: SessionState)
    requires initialized.Initialized? && s.backend.Some?
    requires initialized.workerBundleHash == s.workerBundleHash
    requires initialized.modelRevision == s.backend.value.modelRevision
    requires initialized.tokenizerRevision == s.backend.value.codecRevision
    requires initialized.conditioning == s.backend.value.conditioning
    requires forall r :: r in rest ==> !r.Initialized? && (r.SynthesisSucceeded? ==> RenderedBy(r, s))
    ensures SafeTranscript([initialized] + rest)
  {
    var sent := [initialized] + rest;
    forall j | 0 <= j < |sent| && sent[j].SynthesisSucceeded? ensures exists i :: 0 <= i < j && Announced(sent[j], sent[i]) {
      assert sent[j] in rest;
      assert Announced(sent[j], sent[0]);
    }
  }
}
