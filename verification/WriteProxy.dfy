/**
 * The websocket write proxy (webrtc-server/pkg/ws_proxy/ws_proxy.go): one
 * runner offers a fresh request channel at a time; whichever WriteJSON call
 * receives it sends its request on it and waits on its own error channel.
 * All channels are unbuffered, so every communication is one joint step.
 */
module WriteProxy {
  import opened Wrappers

  type CallId = nat
  type ChanId = nat
  type Data = string

  /** The error WriteJSON of the connection returned, None for nil. */
  type WriteResult = Option<string>

  datatype Runner =
    | Selecting(requestC: ChanId)                    // select on Done and requestsChan
    | AwaitingRequest(requestC: ChanId)              // <-requestC
    | Writing(data: Data, err: ChanId)               // inside Conn.WriteJSON
    | Reporting(err: ChanId, result: WriteResult)    // request.Err <- result
    | Stopped                                        // requestsChan is closed

  datatype Outcome = Wrote(result: WriteResult) | AlreadyClosed

  datatype Call =
    | Waiting(data: Data)                                      // <-requestsChan
    | Sending(data: Data, requestC: ChanId, err: ChanId)       // requestC <- request
    | AwaitingResult(data: Data, err: ChanId)                  // <-request.Err
    | Returned(data: Data, used: Option<ChanId>, outcome: Outcome)

  datatype Write = Write(data: Data, err: ChanId, result: WriteResult)

  /** `active` is auxiliary: the call the runner is serving.  No step looks at it. */
  datatype State = State(
    runner: Runner,
    calls: map<CallId, Call>,
    cancelled: bool,
    nextChan: ChanId,
    writes: seq<Write>,
    active: Option<CallId>)

  const INIT := State(Selecting(0), map[], false, 1, [], None)

  datatype Step =
    | Start(id: CallId, data: Data)
    | Cancel
    | Offer(id: CallId)
    | Stop
    | SendRequest(id: CallId)
    | FinishWrite(result: WriteResult)
    | Report(id: CallId)
    | SeeClosed(id: CallId)

  predicate Enabled(s: State, step: Step) {
    match step
    case Start(id, _) => id !in s.calls
    case Cancel => !s.cancelled
    case Offer(id) => s.runner.Selecting? && id in s.calls && s.calls[id].Waiting?
    case Stop => s.runner.Selecting? && s.cancelled
    case SendRequest(id) =>
      s.runner.AwaitingRequest? && id in s.calls && s.calls[id].Sending? && s.calls[id].requestC == s.runner.requestC
    case FinishWrite(_) => s.runner.Writing?
    case Report(id) =>
      s.runner.Reporting? && id in s.calls && s.calls[id].AwaitingResult? && s.calls[id].err == s.runner.err
    case SeeClosed(id) => s.runner.Stopped? && id in s.calls && s.calls[id].Waiting?
  }

  function Do(s: State, step: Step): State
    requires Enabled(s, step)
  {
    match step
    case Start(id, data) => s.(calls := s.calls[id := Waiting(data)])
    case Cancel => s.(cancelled := true)
    case Offer(id) =>
      s.(runner := AwaitingRequest(s.runner.requestC),
        calls := s.calls[id := Sending(s.calls[id].data, s.runner.requestC, s.nextChan)],
        nextChan := s.nextChan + 1,
        active := Some(id))
    case Stop => s.(runner := Stopped)
    case SendRequest(id) =>
      var Sending(data, _, err) := s.calls[id];
      s.(runner := Writing(data, err), calls := s.calls[id := AwaitingResult(data, err)])
    case FinishWrite(result) =>
      s.(runner := Reporting(s.runner.err, result), writes := s.writes + [Write(s.runner.data, s.runner.err, result)])
    case Report(id) =>
      var AwaitingResult(data, err) := s.calls[id];
      s.(runner := Selecting(s.nextChan),
        calls := s.calls[id := Returned(data, Some(err), Wrote(s.runner.result))],
        nextChan := s.nextChan + 1,
        active := None)
    case SeeClosed(id) =>
      s.(calls := s.calls[id := Returned(s.calls[id].data, None, AlreadyClosed)])
  }

  function Next(s: State, step: Step): State {
    if Enabled(s, step) then Do(s, step) else s
  }

  function Exec(s: State, steps: seq<Step>): State
    decreases |steps|
  {
    if steps == [] then s else Exec(Next(s, steps[0]), steps[1..])
  }

  // ---------------------------------------------------------------- invariant

  predicate InHandshake(c: Call) {
    c.Sending? || c.AwaitingResult?
  }

  /** The runner and the one call it serves are at matching points. */
  ghost predicate HandshakeInv(s: State) {
    && (forall id :: id in s.calls && InHandshake(s.calls[id]) ==> s.active == Some(id))
    && (s.active.Some? ==> s.active.value in s.calls)
    && match s.runner
       case Selecting(_) => s.active.None?
       case Stopped => s.active.None? && s.cancelled
       case AwaitingRequest(c) =>
         s.active.Some? && s.calls[s.active.value].Sending? && s.calls[s.active.value].requestC == c
       case Writing(data, err) =>
         s.active.Some? && s.calls[s.active.value] == AwaitingResult(data, err)
       case Reporting(err, result) =>
         && s.active.Some? && s.calls[s.active.value].AwaitingResult? && s.calls[s.active.value].err == err
         && s.writes != [] && s.writes[|s.writes| - 1] == Write(s.calls[s.active.value].data, err, result)
  }

  function ErrOf(c: Call): Option<ChanId> {
    match c
    case Waiting(_) => None
    case Sending(_, _, err) => Some(err)
    case AwaitingResult(_, err) => Some(err)
    case Returned(_, used, _) => used
  }

  /** Error channels are private to a call, and a write is identified by the one it came with. */
  ghost predicate ChannelInv(s: State) {
    && (forall id :: id in s.calls && ErrOf(s.calls[id]).Some? ==> ErrOf(s.calls[id]).value < s.nextChan)
    && (forall a, b :: a in s.calls && b in s.calls && a != b && ErrOf(s.calls[a]).Some? ==>
          ErrOf(s.calls[a]) != ErrOf(s.calls[b]))
    && (forall i, j :: 0 <= i < j < |s.writes| ==> s.writes[i].err != s.writes[j].err)
    && (forall i :: 0 <= i < |s.writes| ==> s.writes[i].err < s.nextChan)
    && (forall id, i :: id in s.calls && 0 <= i < |s.writes| && ErrOf(s.calls[id]) == Some(s.writes[i].err) ==>
          s.calls[id].Returned? || s.runner.Reporting?)
  }

  ghost predicate WrittenFor(s: State, c: Call)
    requires c.Returned?
  {
    match c.outcome
    case AlreadyClosed => c.used.None? && s.cancelled
    case Wrote(result) => c.used.Some? && Write(c.data, c.used.value, result) in s.writes
  }

  ghost predicate OutcomeInv(s: State) {
    forall id :: id in s.calls && s.calls[id].Returned? ==> WrittenFor(s, s.calls[id])
  }

  ghost predicate Inv(s: State) {
    HandshakeInv(s) && ChannelInv(s) && OutcomeInv(s)
  }

  lemma HandshakeStep(s: State, step: Step)
    requires HandshakeInv(s) && Enabled(s, step)
    ensures HandshakeInv(Do(s, step))
  {
    match step
    case Start(id, _) =>
    case Cancel =>
    case Offer(id) =>
    case Stop =>
    case SendRequest(id) => assert s.active == Some(id);
    case FinishWrite(result) =>
    case Report(id) => assert s.active == Some(id);
    case SeeClosed(id) =>
  }

  lemma FinishWriteChannels(s: State, result: WriteResult)
    requires HandshakeInv(s) && ChannelInv(s) && Enabled(s, FinishWrite(result))
    ensures ChannelInv(Do(s, FinishWrite(result)))
  {
    var call := s.calls[s.active.value];
    assert ErrOf(call) == Some(s.runner.err);
    assert forall i :: 0 <= i < |s.writes| ==> s.writes[i].err != s.runner.err;
  }

  lemma ReportChannels(s: State, id: CallId)
    requires HandshakeInv(s) && ChannelInv(s) && Enabled(s, Report(id))
    ensures ChannelInv(Do(s, Report(id)))
  {
    var t := Do(s, Report(id));
    assert forall c :: c in s.calls ==> ErrOf(t.calls[c]) == ErrOf(s.calls[c]);
    assert forall c :: c in t.calls && ErrOf(t.calls[c]).Some? ==> t.calls[c].Returned?;
  }

  lemma OfferChannels(s: State, id: CallId)
    requires ChannelInv(s) && Enabled(s, Offer(id))
    ensures ChannelInv(Do(s, Offer(id)))
  {
    var t := Do(s, Offer(id));
    assert forall c :: c in s.calls && c != id ==> ErrOf(t.calls[c]) == ErrOf(s.calls[c]);
  }

  predicate KeepsChannels(step: Step) {
    step.Start? || step.Cancel? || step.Stop? || step.SendRequest? || step.SeeClosed?
  }

  lemma QuietChannels(s: State, step: Step)
    requires ChannelInv(s) && Enabled(s, step) && KeepsChannels(step)
    ensures ChannelInv(Do(s, step))
  {
    var t := Do(s, step);
    assert forall c :: c in s.calls ==> ErrOf(t.calls[c]) == ErrOf(s.calls[c]);
    assert forall c :: c in t.calls && c !in s.calls ==> ErrOf(t.calls[c]).None?;
    assert forall c :: c in s.calls && s.calls[c].Returned? ==> t.calls[c].Returned?;
  }

  lemma ChannelStep(s: State, step: Step)
    requires HandshakeInv(s) && ChannelInv(s) && Enabled(s, step)
    ensures ChannelInv(Do(s, step))
  {
    match step
    case Offer(id) => OfferChannels(s, id);
    case FinishWrite(result) => FinishWriteChannels(s, result);
    case Report(id) => ReportChannels(s, id);
    case _ => QuietChannels(s, step);
  }

  lemma OutcomeStep(s: State, step: Step)
    requires HandshakeInv(s) && OutcomeInv(s) && Enabled(s, step)
    ensures OutcomeInv(Do(s, step))
  {
    var t := Do(s, step);
    assert s.writes <= t.writes;
    forall id | id in t.calls && t.calls[id].Returned?
      ensures WrittenFor(t, t.calls[id])
    {
      if step.Report? && step.id == id {
        assert s.active == Some(id);
        assert s.writes[|s.writes| - 1] in t.writes;
      }
    }
  }

  lemma {:induction false} ExecInv(s: State, steps: seq<Step>)
    requires Inv(s)
    ensures Inv(Exec(s, steps))
    decreases |steps|
  {
    if steps == [] {
    } else {
      if Enabled(s, steps[0]) {
        HandshakeStep(s, steps[0]);
        ChannelStep(s, steps[0]);
        OutcomeStep(s, steps[0]);
      }
      ExecInv(Next(s, steps[0]), steps[1..]);
    }
  }

  // ---------------------------------------------------------------- results about every run

  /** Of all the calls under way at most one is past the first channel, and it is the one being served. */
  lemma OneCallIsServed(steps: seq<Step>)
    ensures
      var s := Exec(INIT, steps);
      && (forall a, b :: a in s.calls && b in s.calls && InHandshake(s.calls[a]) && InHandshake(s.calls[b]) ==> a == b)
      && (s.runner.Writing? ==>
            exists id :: id in s.calls && s.calls[id] == AwaitingResult(s.runner.data, s.runner.err))
  {
    ExecInv(INIT, steps);
    var s := Exec(INIT, steps);
    if s.runner.Writing? {
      assert s.calls[s.active.value] == AwaitingResult(s.runner.data, s.runner.err);
    }
  }

  /**
   * The call has been told the result of the one write that carried its
   * request, and that write was of its own data, or it has found the proxy
   * closed, which happens only after cancellation.
   */
  ghost predicate OwnOutcome(s: State, id: CallId)
    requires id in s.calls && s.calls[id].Returned?
  {
    var c := s.calls[id];
    if c.outcome.AlreadyClosed? then s.cancelled && c.used.None?
    else
      && c.used.Some?
      && (exists i :: 0 <= i < |s.writes|
            && s.writes[i] == Write(c.data, c.used.value, c.outcome.result)
            && forall j :: 0 <= j < |s.writes| && s.writes[j].err == c.used.value ==> j == i)
      && (forall other :: other in s.calls && other != id ==> ErrOf(s.calls[other]) != c.used)
  }

  lemma OwnResult(steps: seq<Step>, id: CallId)
    ensures var s := Exec(INIT, steps); id in s.calls && s.calls[id].Returned? ==> OwnOutcome(s, id)
  {
    ExecInv(INIT, steps);
    var s := Exec(INIT, steps);
    if id in s.calls && s.calls[id].Returned? && s.calls[id].outcome.Wrote? {
      var c := s.calls[id];
      assert WrittenFor(s, c);
      var i :| 0 <= i < |s.writes| && s.writes[i] == Write(c.data, c.used.value, c.outcome.result);
      assert ErrOf(c) == c.used;
    } else if id in s.calls && s.calls[id].Returned? {
      assert WrittenFor(s, s.calls[id]);
    }
  }

  /** Steps of the proxy and of calls already made. */
  predicate Progress(step: Step) {
    !step.Start? && !step.Cancel?
  }

  /** A call has not returned, or the runner has yet to notice the cancellation. */
  ghost predicate Unfinished(s: State) {
    (exists id :: id in s.calls && !s.calls[id].Returned?) || (s.cancelled && !s.runner.Stopped?)
  }

  lemma ServedCallCanMove(s: State)
    requires HandshakeInv(s) && s.active.Some?
    ensures exists step :: Progress(step) && Enabled(s, step)
  {
    assert Enabled(s, SendRequest(s.active.value)) || Enabled(s, FinishWrite(None))
        || Enabled(s, Report(s.active.value));
  }

  /** No deadlock: something can move exactly when something is unfinished. */
  lemma NoDeadlock(steps: seq<Step>)
    ensures var s := Exec(INIT, steps);
      Unfinished(s) <==> exists step :: Progress(step) && Enabled(s, step)
  {
    ExecInv(INIT, steps);
    var s := Exec(INIT, steps);
    if s.active.Some? {
      ServedCallCanMove(s);
      assert !s.calls[s.active.value].Returned?;
    } else if s.cancelled && !s.runner.Stopped? {
      assert Enabled(s, Stop);
    } else if id :| id in s.calls && !s.calls[id].Returned? {
      assert Enabled(s, Offer(id)) || Enabled(s, SeeClosed(id));
    }
  }

  function WaitingCalls(s: State): set<CallId> {
    set id | id in s.calls && s.calls[id].Waiting?
  }

  function Work(s: State): nat {
    5 * |WaitingCalls(s)| + match s.runner
                            case AwaitingRequest(_) => 4
                            case Writing(_, _) => 3
                            case Reporting(_, _) => 2
                            case Selecting(_) => 1
                            case Stopped => 0
  }

  lemma StepWork(s: State, step: Step)
    requires Enabled(s, step) && Progress(step)
    ensures Work(Do(s, step)) < Work(s)
  {
    var t := Do(s, step);
    if step.Offer? || step.SeeClosed? {
      assert WaitingCalls(t) == WaitingCalls(s) - {step.id};
    } else {
      assert WaitingCalls(t) == WaitingCalls(s);
    }
  }

  ghost predicate Progresses(s: State, steps: seq<Step>)
    decreases |steps|
  {
    steps == [] || (Enabled(s, steps[0]) && Progress(steps[0]) && Progresses(Do(s, steps[0]), steps[1..]))
  }

  /** Left to themselves the proxy and the calls already made stop within this many steps. */
  lemma {:induction false} ProgressIsBounded(s: State, steps: seq<Step>)
    requires Progresses(s, steps)
    ensures |steps| <= Work(s) <= 5 * |WaitingCalls(s)| + 4
    decreases |steps|
  {
    if steps == [] {
    } else {
      StepWork(s, steps[0]);
      ProgressIsBounded(Do(s, steps[0]), steps[1..]);
    }
  }

  /** No call is made meanwhile and none is forgotten. */
  lemma {:induction false} ProgressKeepsCalls(s: State, steps: seq<Step>)
    requires Progresses(s, steps)
    ensures Exec(s, steps).calls.Keys == s.calls.Keys && Exec(s, steps).cancelled == s.cancelled
    decreases |steps|
  {
    if steps == [] {
    } else {
      var t := Do(s, steps[0]);
      assert t.calls.Keys == s.calls.Keys;
      ProgressKeepsCalls(t, steps[1..]);
    }
  }

  lemma {:induction false} ExecAppend(s: State, a: seq<Step>, b: seq<Step>)
    ensures Exec(s, a + b) == Exec(Exec(s, a), b)
    decreases |a|
  {
    if a == [] {
      assert a + b == b;
    } else {
      assert (a + b)[1..] == a[1..] + b;
      ExecAppend(Next(s, a[0]), a[1..], b);
    }
  }

  ghost predicate AtRest(s: State) {
    forall step :: Progress(step) ==> !Enabled(s, step)
  }

  /**
   * Whatever has happened, once the proxy and the calls already made have
   * gone as far as they can, every call has returned with its own result or,
   * after cancellation, the closed error; and they do get there, since they
   * stop within a bounded number of steps.
   */
  lemma OutstandingCallsReturn(before: seq<Step>, after: seq<Step>)
    requires Progresses(Exec(INIT, before), after) && AtRest(Exec(Exec(INIT, before), after))
    ensures
      var s := Exec(INIT, before);
      var t := Exec(s, after);
      && t.calls.Keys == s.calls.Keys
      && (forall id :: id in t.calls ==> t.calls[id].Returned? && OwnOutcome(t, id))
      && (s.cancelled ==> t.runner.Stopped?)
      && |after| <= 5 * |WaitingCalls(s)| + 4
  {
    var s := Exec(INIT, before);
    var t := Exec(s, after);
    ProgressIsBounded(s, after);
    ProgressKeepsCalls(s, after);
    ExecAppend(INIT, before, after);
    NoDeadlock(before + after);
    assert !Unfinished(t);
    forall id | id in t.calls
      ensures t.calls[id].Returned? && OwnOutcome(t, id)
    {
      OwnResult(before + after, id);
    }
  }

  // ---------------------------------------------------------------- one call

  /** A run goes on with one step at a time, and a step that is not enabled is skipped. */
  lemma ExecOneMore(s: State, steps: seq<Step>, step: Step)
    ensures Exec(s, []) == s && Exec(s, steps + [step]) == Next(Exec(s, steps), step)
  {
    ExecAppend(s, steps, [step]);
    assert [step][1..] == [];
  }

  /** A WriteJSON called while the runner waits, and left alone, writes its data once and returns that result. */
  lemma UndisturbedWrite(s: State, id: CallId, data: Data, result: WriteResult)
    requires id !in s.calls && s.runner.Selecting?
    ensures
      var offered := Next(Next(s, Start(id, data)), Offer(id));
      var t := Next(Next(Next(offered, SendRequest(id)), FinishWrite(result)), Report(id));
      && id in t.calls && t.calls[id].Returned? && t.calls[id].outcome == Wrote(result) && t.runner.Selecting?
      && |t.writes| == |s.writes| + 1 && t.writes[..|s.writes|] == s.writes
      && t.writes[|s.writes|].data == data && t.writes[|s.writes|].result == result
      && t.cancelled == s.cancelled
      && forall other :: other in s.calls ==> other in t.calls && t.calls[other] == s.calls[other]
  {
  }

  /** Once cancelled and stopped the proxy answers every call that it is closed, and writes nothing. */
  lemma ClosedAnswers(s: State, id: CallId, data: Data)
    requires id !in s.calls && s.runner.Selecting?
    ensures
      var stopped := Next(Next(s, Cancel), Stop);
      var t := Next(Next(stopped, Start(id, data)), SeeClosed(id));
      && stopped.cancelled && stopped.runner.Stopped? && t.writes == s.writes
      && id in t.calls && t.calls[id] == Returned(data, None, AlreadyClosed)
  {
  }
}
