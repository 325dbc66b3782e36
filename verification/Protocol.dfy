/** Bounded frame reading over a byte stream, and the nesting check on a parsed frame. */
module Protocol {
  import opened Text
  import opened Wrappers

  const MAX_WORKER_FRAME_BYTES: nat := 1024 * 1024
  const DISCARD_CHUNK_BYTES: nat := 64 * 1024
  const MAX_JSON_NESTING_DEPTH: nat := 32

  const NEWLINE: byte := 10

  /** A refusal to read a line: it held this many bytes, terminator included. */
  datatype FrameTooLong = FrameTooLong(bytes: nat)

  /** How many bytes stand before the first newline, or before the end. */
  function ContentLength(b: seq<byte>): (n: nat)
    ensures n <= |b| && NEWLINE !in b[..n] && (n < |b| ==> b[n] == NEWLINE)
  {
    if b == [] || b[0] == NEWLINE then 0
    else
      var n := ContentLength(b[1..]);
      assert b[..n + 1] == [b[0]] + b[1..][..n];
      n + 1
  }

  predicate Terminated(b: seq<byte>) {
    ContentLength(b) < |b|
  }

  /** The first line with its newline, if it has one. */
  function FirstLine(b: seq<byte>): seq<byte> {
    if Terminated(b) then b[..ContentLength(b) + 1] else b
  }

  predicate EndsWithNewline(line: seq<byte>) {
    line != [] && line[|line| - 1] == NEWLINE
  }

  function Min(a: nat, b: nat): nat {
    if a < b then a else b
  }

  /** `BinaryIO`: the bytes not read yet. */
  class ByteStream {
    var unread: seq<byte>

    constructor (bytes: seq<byte>)
      ensures unread == bytes
    {
      unread := bytes;
    }

    /** `readline(limit)`: up to and including a newline, and never more than `limit` bytes. */
    method Readline(limit: nat) returns (line: seq<byte>)
      modifies this
      ensures |line| <= limit
      ensures line == old(FirstLine(unread)[..Min(limit, |FirstLine(unread)|)])
      ensures unread == old(unread[|line|..])
      ensures old(unread) == line + unread
    {
      line := FirstLine(unread)[..Min(limit, |FirstLine(unread)|)];
      unread := unread[|line|..];
    }
  }

  /** What reading one line amounts to: nothing left, a line, or a refusal. */
  type ReadResult = Result<Option<seq<byte>>, FrameTooLong>

  function ReadOutcome(b: seq<byte>): ReadResult {
    var content := ContentLength(b);
    if b == [] then Success(None)
    else if content <= MAX_WORKER_FRAME_BYTES then Success(Some(b[..content]))
    else Failure(FrameTooLong(|FirstLine(b)|))
  }

  /** One line, or one refusal; either way the stream then stands at the next line. */
  method ReadLine(stream: ByteStream) returns (r: ReadResult)
    modifies stream
    ensures r == old(ReadOutcome(stream.unread))
    ensures stream.unread == old(stream.unread[|FirstLine(stream.unread)|..])
  {
    ghost var b := stream.unread;
    var line := stream.Readline(MAX_WORKER_FRAME_BYTES + 1);
    if line == [] {
      return Success(None);
    }
    if EndsWithNewline(line) {
      NewlineEndsLine(b, |line|);
      assert line[..|line| - 1] == b[..ContentLength(b)];
      return Success(Some(line[..|line| - 1]));
    }
    if |line| > MAX_WORKER_FRAME_BYTES {
      FirstLineContinues(b, |line|);
      var dropped := DiscardLine(stream);
      return Failure(FrameTooLong(|line| + dropped));
    }
    assert line == FirstLine(b);
    return Success(Some(line));
  }

  /** Within a line, only its last byte can be a newline. */
  lemma NewlineEndsLine(b: seq<byte>, n: nat)
    requires 0 < n <= |FirstLine(b)|
    ensures FirstLine(b)[n - 1] == NEWLINE <==> Terminated(b) && n == |FirstLine(b)|
  {
    if n - 1 < ContentLength(b) {
      assert b[..ContentLength(b)][n - 1] == FirstLine(b)[n - 1];
    }
  }

  /** Cutting a line before its newline leaves the rest of that line in front. */
  lemma FirstLineContinues(b: seq<byte>, n: nat)
    requires n <= ContentLength(b)
    ensures FirstLine(b[n..]) == FirstLine(b)[n..]
    ensures |FirstLine(b[n..])| == |FirstLine(b)| - n
  {
    ContentContinues(b, n);
    if Terminated(b) {
      SliceOfSlice(b, n, ContentLength(b) + 1);
    }
  }

  lemma {:induction false} ContentContinues(b: seq<byte>, n: nat)
    requires n <= ContentLength(b)
    ensures ContentLength(b[n..]) == ContentLength(b) - n
  {
    if n > 0 {
      ContentContinues(b[1..], n - 1);
      assert b[1..][n - 1..] == b[n..];
    } else {
      assert b[0..] == b;
    }
  }

  method DiscardLine(stream: ByteStream) returns (dropped: nat)
    modifies stream
    ensures dropped == old(|FirstLine(stream.unread)|)
    ensures stream.unread == old(stream.unread[|FirstLine(stream.unread)|..])
  {
    dropped := 0;
    ghost var start := stream.unread;
    while true
      invariant dropped <= |FirstLine(start)| && stream.unread == start[dropped..]
      invariant dropped <= ContentLength(start)
      decreases |stream.unread|
    {
      FirstLineContinues(start, dropped);
      var chunk := stream.Readline(DISCARD_CHUNK_BYTES);
      if chunk == [] {
        return;
      }
      dropped := dropped + |chunk|;
      if EndsWithNewline(chunk) {
        return;
      }
    }
  }

  // ----- the whole stream -----

  /** The outcomes of reading until nothing is left. */
  function ReadAll(b: seq<byte>): seq<Result<seq<byte>, FrameTooLong>>
    decreases |b|
  {
    if b == [] then []
    else
      var head := match ReadOutcome(b)
        case Success(line) => (match line case Some(text) => Success(text) case None => Success([]))
        case Failure(refusal) => Failure(refusal);
      [head] + ReadAll(b[|FirstLine(b)|..])
  }

  datatype Line = Line(content: seq<byte>, terminated: bool)

  /** A byte stream as lines, read one byte at a time and with no bound. */
  function SplitLines(b: seq<byte>): (lines: seq<Line>)
    ensures b != [] ==> lines != []
  {
    if b == [] then []
    else if b[0] == NEWLINE then [Line([], true)] + SplitLines(b[1..])
    else if |b| == 1 then [Line(b, false)]
    else
      var rest := SplitLines(b[1..]);
      [Line([b[0]] + rest[0].content, rest[0].terminated)] + rest[1..]
  }

  function Classify(line: Line): Result<seq<byte>, FrameTooLong> {
    if |line.content| <= MAX_WORKER_FRAME_BYTES then Success(line.content)
    else Failure(FrameTooLong(|line.content| + if line.terminated then 1 else 0))
  }

  lemma {:induction false} SplitFirst(b: seq<byte>)
    requires b != []
    ensures SplitLines(b) == [Line(b[..ContentLength(b)], Terminated(b))] + SplitLines(b[|FirstLine(b)|..])
  {
    if b[0] == NEWLINE {
      assert FirstLine(b) == [b[0]] && b[..0] == [];
    } else if |b| == 1 {
      assert b[1..] == [] && ContentLength(b) == 1 && b[..1] == b;
    } else {
      SplitFirst(b[1..]);
      ContentContinues(b, 1);
      HeadAndTail(b, |FirstLine(b[1..])|);
      HeadAndTail(b, ContentLength(b[1..]));
      TailOfAppend([Line(b[1..][..ContentLength(b[1..])], Terminated(b[1..]))], SplitLines(b[1..][|FirstLine(b[1..])|..]));
    }
  }

  /**
   Bounded reading refines line splitting: the outcomes are the lines, in order, with each
   over-long line replaced by exactly one refusal.
   */
  lemma {:induction false} ReadAllIsSplitLines(b: seq<byte>)
    ensures |ReadAll(b)| == |SplitLines(b)|
    ensures forall i :: 0 <= i < |SplitLines(b)| ==> ReadAll(b)[i] == Classify(SplitLines(b)[i])
    decreases |b|
  {
    if b != [] {
      SplitFirst(b);
      ReadAllIsSplitLines(b[|FirstLine(b)|..]);
    }
  }

  // ----- nesting -----

  /** A parsed frame, as far as nesting goes. */
  datatype Json = Scalar | List(items: seq<Json>) | Dictionary(members: seq<(string, Json)>) {
    function Children(): seq<Json> {
      match this
      case Scalar => []
      case List(items) => items
      case Dictionary(members) => seq(|members|, i requires 0 <= i < |members| => members[i].1)
    }
  }

  /** Levels of nesting, a scalar counting as one. */
  function Depth(v: Json): nat
    decreases v
  {
    1 + DeepestOf(v.Children(), v)
  }

  ghost predicate Within(items: seq<Json>, v: Json) {
    forall i :: 0 <= i < |items| ==> items[i] < v
  }

  function DeepestOf(items: seq<Json>, v: Json): nat
    requires Within(items, v)
    decreases v, |items|
  {
    if items == [] then 0 else Max(Depth(items[0]), DeepestOf(items[1..], v))
  }

  function Max(a: nat, b: nat): nat {
    if a < b then b else a
  }

  lemma {:induction false} DeepestIsBound(items: seq<Json>, v: Json, bound: nat)
    requires Within(items, v)
    ensures DeepestOf(items, v) > bound <==> exists i :: 0 <= i < |items| && Depth(items[i]) > bound
    decreases |items|
  {
    if items != [] {
      DeepestIsBound(items[1..], v, bound);
      assert forall i :: 0 <= i < |items| - 1 ==> items[1..][i] == items[i + 1];
    }
  }

  /** The value a list or a dictionary holds at a place. */
  function Held(v: Json, i: nat): Option<Json> {
    match v
    case List(items) => if i < |items| then Some(items[i]) else None
    case Dictionary(members) => if i < |members| then Some(members[i].1) else None
    case Scalar => None
  }

  /** A way down into a value, one place at a time. */
  ghost predicate IsPath(v: Json, path: seq<nat>)
    decreases path
  {
    path != [] ==> Held(v, path[0]).Some? && IsPath(Held(v, path[0]).value, path[1..])
  }

  lemma HeldIsChild(v: Json, i: nat)
    ensures Held(v, i) == if i < |v.Children()| then Some(v.Children()[i]) else None
  {
  }

  /** The depth is one more than the longest way down, scalars counted as a level. */
  lemma DepthIsLongestPath(v: Json)
    ensures exists path :: IsPath(v, path) && |path| + 1 == Depth(v)
    ensures forall path :: IsPath(v, path) ==> |path| + 1 <= Depth(v)
  {
    var longest := LongestPath(v);
    assert IsPath(v, longest);
    forall path | IsPath(v, path) ensures |path| + 1 <= Depth(v) {
      NoLongerPath(v, path);
    }
  }

  lemma {:induction false} NoLongerPath(v: Json, path: seq<nat>)
    requires IsPath(v, path)
    ensures |path| + 1 <= Depth(v)
    decreases path
  {
    if path != [] {
      HeldIsChild(v, path[0]);
      NoLongerPath(Held(v, path[0]).value, path[1..]);
      DeepestIsBound(v.Children(), v, |path| - 1);
      assert Depth(v.Children()[path[0]]) > |path| - 1;
    }
  }

  lemma {:induction false} LongestPath(v: Json) returns (path: seq<nat>)
    ensures IsPath(v, path) && |path| + 1 == Depth(v)
    decreases v
  {
    path := [];
    if Depth(v) > 1 {
      DeepestIsBound(v.Children(), v, Depth(v) - 2);
      var i: int :| 0 <= i < |v.Children()| && Depth(v.Children()[i]) > Depth(v) - 2;
      DeepestIsBound(v.Children(), v, Depth(v) - 1);
      HeldIsChild(v, i);
      var rest := LongestPath(v.Children()[i]);
      path := [i] + rest;
      assert path[1..] == rest;
    }
  }

  ghost function Size(v: Json): nat
    decreases v
  {
    1 + SizeOf(v.Children(), v)
  }

  ghost function SizeOf(items: seq<Json>, v: Json): nat
    requires Within(items, v)
    decreases v, |items|
  {
    if items == [] then 0 else Size(items[0]) + SizeOf(items[1..], v)
  }

  type Pending = seq<(Json, nat)>

  ghost function PendingSize(pending: Pending): nat {
    if pending == [] then 0 else PendingSize(pending[..|pending| - 1]) + Size(pending[|pending| - 1].0)
  }

  function AtDepth(items: seq<Json>, depth: nat): Pending {
    seq(|items|, i requires 0 <= i < |items| => (items[i], depth))
  }

  lemma {:induction false} PushSize(pending: Pending, items: seq<Json>, depth: nat, v: Json)
    requires Within(items, v)
    ensures PendingSize(pending + AtDepth(items, depth)) == PendingSize(pending) + SizeOf(items, v)
    decreases |items|
  {
    if items == [] {
      assert pending + AtDepth(items, depth) == pending;
    } else {
      var first := (items[0], depth);
      PushSize(pending + [first], items[1..], depth, v);
      assert pending + AtDepth(items, depth) == (pending + [first]) + AtDepth(items[1..], depth);
      assert (pending + [first])[..|pending|] == pending;
    }
  }

  /** Some pending value, at its depth, reaches past the ceiling. */
  ghost predicate ReachesTooDeep(pending: Pending) {
    exists i :: 0 <= i < |pending| && pending[i].1 + Depth(pending[i].0) - 1 > MAX_JSON_NESTING_DEPTH
  }

  lemma ReachesEither(p: Pending, q: Pending)
    ensures ReachesTooDeep(p + q) <==> ReachesTooDeep(p) || ReachesTooDeep(q)
  {
    var pq := p + q;
    assert forall i :: 0 <= i < |p| ==> pq[i] == p[i];
    assert forall i :: 0 <= i < |q| ==> pq[|p| + i] == q[i];
    assert forall i :: |p| <= i < |pq| ==> pq[i] == q[i - |p|];
  }

  /** A value within the ceiling reaches past it exactly when one of its children does. */
  lemma ReachesThroughChildren(v: Json, depth: nat)
    requires depth <= MAX_JSON_NESTING_DEPTH
    ensures ReachesTooDeep([(v, depth)]) <==> ReachesTooDeep(AtDepth(v.Children(), depth + 1))
  {
    var items := v.Children();
    var pushed := AtDepth(items, depth + 1);
    DeepestIsBound(items, v, MAX_JSON_NESTING_DEPTH - depth);
    assert ReachesTooDeep([(v, depth)]) <==> depth + Depth(v) - 1 > MAX_JSON_NESTING_DEPTH by {
      assert [(v, depth)][0] == (v, depth);
    }
    assert forall i :: 0 <= i < |items| ==> pushed[i].0 == items[i];
  }

  /** Taking the last pending value and pushing its children keeps the verdict. */
  lemma Expand(rest: Pending, v: Json, depth: nat)
    requires depth <= MAX_JSON_NESTING_DEPTH
    ensures ReachesTooDeep(rest + AtDepth(v.Children(), depth + 1)) <==> ReachesTooDeep(rest + [(v, depth)])
  {
    ReachesThroughChildren(v, depth);
    ReachesEither(rest, AtDepth(v.Children(), depth + 1));
    ReachesEither(rest, [(v, depth)]);
  }

  lemma ExpandShrinks(rest: Pending, v: Json, depth: nat)
    ensures PendingSize(rest + AtDepth(v.Children(), depth + 1)) < PendingSize(rest + [(v, depth)])
  {
    PushSize(rest, v.Children(), depth + 1, v);
    assert (rest + [(v, depth)])[..|rest|] == rest;
  }

  /** The explicit-stack walk refuses exactly what a recursive depth bound refuses. */
  method CheckNesting(value: Json) returns (refused: bool)
    ensures refused <==> Depth(value) > MAX_JSON_NESTING_DEPTH
  {
    var pending: Pending := [(value, 1)];
    assert pending[0].0 == value;
    while pending != []
      invariant ReachesTooDeep(pending) <==> Depth(value) > MAX_JSON_NESTING_DEPTH
      decreases PendingSize(pending)
    {
      var n := |pending| - 1;
      var (current, depth) := pending[n];
      if depth > MAX_JSON_NESTING_DEPTH {
        assert pending[n].1 + Depth(pending[n].0) - 1 > MAX_JSON_NESTING_DEPTH;
        return true;
      }
      assert pending == pending[..n] + [(current, depth)];
      Expand(pending[..n], current, depth);
      ExpandShrinks(pending[..n], current, depth);
      pending := pending[..n];
      pending := pending + AtDepth(current.Children(), depth + 1);
    }
    return false;
  }
}
