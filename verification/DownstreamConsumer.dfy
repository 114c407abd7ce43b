/**
 * The packets of one downstream of a duplicated track
 * (webrtc-agents/pkg/tracks/duplicate/duplicate.go): a bounded channel filled
 * without blocking, emptied by a writer that drains it when told to stop.
 */
module DownstreamConsumer {
  /** Packets are opaque; what is inside them plays no part. */
  type Packet = nat

  // ---------------------------------------------------------------- one consumer

  datatype Writer =
    | Selecting      // select on packets and stop
    | Writing        // WriteRTP, then select again
    | Draining       // stop seen: receive without blocking
    | DrainWriting   // WriteRTP, then drain again
    | Done           // returned

  /** A packet offered to the consumer, what became of it, and how full the buffer was. */
  datatype Offer = Offer(packet: Packet, accepted: bool, waiting: nat)

  /** `offers`, `attempted` and `acceptedAtStop` are the history of the run. */
  datatype State = State(
    capacity: nat,
    buffer: seq<Packet>,
    writer: Writer,
    stopped: bool,
    closeReturned: bool,
    offers: seq<Offer>,
    attempted: seq<Packet>,
    acceptedAtStop: seq<Packet>)

  function Init(capacity: nat): State {
    State(capacity, [], Selecting, false, false, [], [], [])
  }

  datatype Step =
    | Send(p: Packet, parked: bool)
    | Take
    | FinishWrite
    | SeeStop
    | DrainEmpty
    | Stop
    | CloseReturns

  predicate Enabled(s: State, step: Step) {
    match step
    case Send(_, _) => true
    case Take => (s.writer.Selecting? || s.writer.Draining?) && s.buffer != []
    case FinishWrite => s.writer.Writing? || s.writer.DrainWriting?
    case SeeStop => s.writer.Selecting? && s.stopped
    case DrainEmpty => s.writer.Draining? && s.buffer == []
    case Stop => !s.stopped
    case CloseReturns => s.stopped && !s.closeReturned && s.writer.Done?
  }

  /** The packets accepted so far, in the order they were offered. */
  function Accepted(offers: seq<Offer>): seq<Packet> {
    if offers == [] then []
    else
      var o := offers[|offers| - 1];
      Accepted(offers[..|offers| - 1]) + if o.accepted then [o.packet] else []
  }

  datatype Placement = InBuffer | ToWriter | Dropped

  /**
   * A send succeeds if the buffer has room, or if the writer is parked on the
   * empty channel and takes the packet directly.
   */
  function Place(waiting: nat, capacity: nat, parked: bool): Placement {
    if waiting < capacity then InBuffer else if parked && waiting == 0 then ToWriter else Dropped
  }

  function DoSend(s: State, p: Packet, parked: bool): State {
    var how := Place(|s.buffer|, s.capacity, parked && s.writer.Selecting?);
    var t := s.(offers := s.offers + [Offer(p, !how.Dropped?, |s.buffer|)]);
    match how
    case InBuffer => t.(buffer := s.buffer + [p])
    case ToWriter => t.(writer := Writing, attempted := s.attempted + [p])
    case Dropped => t
  }

  function Do(s: State, step: Step): State
    requires Enabled(s, step)
  {
    match step
    case Send(p, parked) => DoSend(s, p, parked)
    case Take =>
      s.(buffer := s.buffer[1..], attempted := s.attempted + [s.buffer[0]],
        writer := if s.writer.Selecting? then Writing else DrainWriting)
    case FinishWrite => s.(writer := if s.writer.Writing? then Selecting else Draining)
    case SeeStop => s.(writer := Draining)
    case DrainEmpty => s.(writer := Done)
    case Stop => s.(stopped := true, acceptedAtStop := Accepted(s.offers))
    case CloseReturns => s.(closeReturned := true)
  }

  function Next(s: State, step: Step): State {
    if Enabled(s, step) then Do(s, step) else s
  }

  function Exec(s: State, steps: seq<Step>): State
    decreases |steps|
  {
    if steps == [] then s else Exec(Next(s, steps[0]), steps[1..])
  }

  /** A packet is refused only by a full buffer. */
  ghost predicate RefusedWhenFull(offers: seq<Offer>, capacity: nat) {
    forall i :: 0 <= i < |offers| && !offers[i].accepted ==> offers[i].waiting == capacity
  }

  ghost predicate Inv(s: State) {
    && Accepted(s.offers) == s.attempted + s.buffer
    && |s.buffer| <= s.capacity
    && RefusedWhenFull(s.offers, s.capacity)
    && (s.writer.Draining? || s.writer.DrainWriting? || s.writer.Done? ==> s.stopped)
    && s.acceptedAtStop <= Accepted(s.offers)
    && (s.writer.Done? ==> s.acceptedAtStop <= s.attempted)
    && (s.closeReturned ==> s.writer.Done?)
  }

  lemma AcceptedAppend(offers: seq<Offer>, o: Offer)
    ensures Accepted(offers + [o]) == Accepted(offers) + if o.accepted then [o.packet] else []
  {
    assert (offers + [o])[..|offers|] == offers;
  }

  lemma OfferAdded(s: State, t: State, o: Offer)
    requires Inv(s) && t.offers == s.offers + [o] && t.capacity == s.capacity
    requires !o.accepted ==> o.waiting == s.capacity
    ensures Accepted(t.offers) == Accepted(s.offers) + if o.accepted then [o.packet] else []
    ensures RefusedWhenFull(t.offers, t.capacity)
  {
    AcceptedAppend(s.offers, o);
  }

  lemma SendInv(s: State, p: Packet, parked: bool)
    requires Inv(s)
    ensures Inv(DoSend(s, p, parked))
  {
    var t := DoSend(s, p, parked);
    var how := Place(|s.buffer|, s.capacity, parked && s.writer.Selecting?);
    OfferAdded(s, t, Offer(p, !how.Dropped?, |s.buffer|));
    if !how.Dropped? {
      assert s.attempted + s.buffer + [p] == t.attempted + t.buffer;
    }
  }

  lemma NextInv(s: State, step: Step)
    requires Inv(s)
    ensures Inv(Next(s, step)) && Next(s, step).capacity == s.capacity
  {
    match step
    case Send(p, parked) => SendInv(s, p, parked);
    case Take =>
      if Enabled(s, step) {
        assert s.attempted + s.buffer == s.attempted + [s.buffer[0]] + s.buffer[1..];
      }
    case _ =>
  }

  lemma {:induction false} ExecInv(s: State, steps: seq<Step>)
    requires Inv(s)
    ensures Inv(Exec(s, steps)) && Exec(s, steps).capacity == s.capacity
    decreases |steps|
  {
    if steps == [] {
    } else {
      NextInv(s, steps[0]);
      ExecInv(Next(s, steps[0]), steps[1..]);
    }
  }

  /** Writes are attempted for the packets accepted, in order; a packet is refused only by a full buffer. */
  lemma FifoAndDrops(capacity: nat, steps: seq<Step>)
    ensures
      var s := Exec(Init(capacity), steps);
      && s.attempted + s.buffer == Accepted(s.offers)
      && |s.buffer| <= capacity
      && RefusedWhenFull(s.offers, capacity)
  {
    ExecInv(Init(capacity), steps);
  }

  /** When close returns, everything accepted before the stop signal has been attempted, in order. */
  lemma CloseDrains(capacity: nat, steps: seq<Step>)
    ensures
      var s := Exec(Init(capacity), steps);
      s.closeReturned ==> s.stopped && s.writer.Done? && s.acceptedAtStop <= s.attempted
  {
    ExecInv(Init(capacity), steps);
  }

  /** The accepted packets are a subsequence of those offered: each comes with its position among the offers. */
  lemma {:induction false} AcceptedIsSubsequence(offers: seq<Offer>) returns (at: seq<nat>)
    ensures |at| == |Accepted(offers)|
    ensures forall k :: 0 <= k < |at| ==> at[k] < |offers| && offers[at[k]].packet == Accepted(offers)[k]
    ensures forall j, k :: 0 <= j < k < |at| ==> at[j] < at[k]
  {
    if offers == [] {
      at := [];
    } else {
      at := AcceptedIsSubsequence(offers[..|offers| - 1]);
      if offers[|offers| - 1].accepted {
        at := at + [|offers| - 1];
      }
    }
  }

  // ---------------------------------------------------------------- close terminates

  predicate WriterStep(step: Step) {
    step.Take? || step.FinishWrite? || step.SeeStop? || step.DrainEmpty? || step.CloseReturns?
  }

  function Work(s: State): nat {
    2 * |s.buffer| + (if s.closeReturned then 0 else 1)
    + match s.writer
      case Writing => 3
      case Selecting => 2
      case DrainWriting => 2
      case Draining => 1
      case Done => 0
  }

  /** Once stopped, the writer and close always have a step to take until close has returned. */
  lemma StoppedCanMove(capacity: nat, steps: seq<Step>)
    ensures var s := Exec(Init(capacity), steps);
      s.stopped && !s.closeReturned ==> exists step :: WriterStep(step) && Enabled(s, step)
  {
    var s := Exec(Init(capacity), steps);
    if s.stopped && !s.closeReturned {
      assert Enabled(s, Take) || Enabled(s, FinishWrite) || Enabled(s, SeeStop)
          || Enabled(s, DrainEmpty) || Enabled(s, CloseReturns);
    }
  }

  ghost predicate Progresses(s: State, steps: seq<Step>)
    decreases |steps|
  {
    steps == [] || (Enabled(s, steps[0]) && WriterStep(steps[0]) && Progresses(Do(s, steps[0]), steps[1..]))
  }

  /** Without further sends those steps are at most two for each packet buffered, and four more. */
  lemma {:induction false} CloseIsPrompt(s: State, steps: seq<Step>)
    requires Progresses(s, steps)
    ensures |steps| <= Work(s) <= 2 * |s.buffer| + 4
    decreases |steps|
  {
    if steps == [] {
    } else {
      CloseIsPrompt(Do(s, steps[0]), steps[1..]);
    }
  }

  // ---------------------------------------------------------------- one step

  lemma {:induction false} ExecAppend(s: State, a: seq<Step>, b: seq<Step>)
    ensures Exec(s, a + b) == Exec(Exec(s, a), b)
    decreases |a|
  {
    if a == [] {
      assert a + b == b;
    } else {
      assert (a + b)[1..] == a[1..] + b;
      ExecAppend(Next(s, a[0]), a[1..], b);
    }
  }

  /** A run goes on with one step at a time, and a step that is not enabled is skipped. */
  lemma ExecOneMore(s: State, steps: seq<Step>, step: Step)
    ensures Exec(s, []) == s && Exec(s, steps + [step]) == Next(Exec(s, steps), step)
  {
    ExecAppend(s, steps, [step]);
    assert [step][1..] == [];
  }

  /**
   * A packet sent, in any state of any run, is accepted if and only if the
   * buffer has room or the writer waits on an empty one, and is then the last
   * of those attempted and waiting.
   */
  lemma SendOutcome(capacity: nat, steps: seq<Step>, p: Packet, parked: bool)
    ensures
      var s := Exec(Init(capacity), steps);
      var t := Next(s, Send(p, parked));
      var accepted := |s.buffer| < capacity || (parked && s.writer.Selecting? && s.buffer == []);
      && t.offers == s.offers + [Offer(p, accepted, |s.buffer|)]
      && t.attempted + t.buffer == s.attempted + s.buffer + (if accepted then [p] else [])
      && t.stopped == s.stopped && t.closeReturned == s.closeReturned && t.acceptedAtStop == s.acceptedAtStop
  {
    ExecInv(Init(capacity), steps);
    var s := Exec(Init(capacity), steps);
    if |s.buffer| < capacity {
      assert s.attempted + (s.buffer + [p]) == s.attempted + s.buffer + [p];
    } else if parked && s.writer.Selecting? && s.buffer == [] {
      assert s.attempted + [p] + s.buffer == s.attempted + s.buffer + [p];
    }
  }

  /** The writer has a step exactly when it is not done and a packet waits, a write is under way, or stop was said. */
  lemma WriterCanMove(capacity: nat, steps: seq<Step>)
    ensures
      var s := Exec(Init(capacity), steps);
      (exists step: Step ::
         (step.Take? || step.FinishWrite? || step.SeeStop? || step.DrainEmpty?) && Next(s, step) != s)
      <==> !s.writer.Done? && (s.buffer != [] || s.writer.Writing? || s.writer.DrainWriting? || s.stopped)
  {
    ExecInv(Init(capacity), steps);
    var s := Exec(Init(capacity), steps);
    if s.writer.Writing? || s.writer.DrainWriting? {
      assert Next(s, FinishWrite) != s;
    } else if !s.writer.Done? && s.buffer != [] {
      assert Next(s, Take).writer != s.writer;
    } else if s.writer.Draining? {
      assert Next(s, DrainEmpty) != s;
    } else if s.writer.Selecting? && s.stopped {
      assert Next(s, SeeStop) != s;
    }
  }

  lemma {:induction false} StopKept(s: State, steps: seq<Step>)
    requires s.stopped
    ensures Exec(s, steps).stopped && Exec(s, steps).acceptedAtStop == s.acceptedAtStop
    decreases |steps|
  {
    if steps == [] {
    } else {
      StopKept(Next(s, steps[0]), steps[1..]);
    }
  }

  /**
   * Whatever had been attempted or was waiting when stop was said has been
   * attempted, in that order, when close returns.
   */
  lemma StopThenClose(capacity: nat, before: seq<Step>, after: seq<Step>)
    requires !Exec(Init(capacity), before).stopped
    ensures
      var s := Exec(Init(capacity), before);
      var t := Exec(Next(s, Stop), after);
      Next(s, Stop).stopped && (t.closeReturned ==> s.attempted + s.buffer <= t.attempted)
  {
    var s := Exec(Init(capacity), before);
    FifoAndDrops(capacity, before);
    StopKept(Next(s, Stop), after);
    ExecOneMore(Init(capacity), before, Stop);
    ExecAppend(Init(capacity), before + [Stop], after);
    CloseDrains(capacity, before + [Stop] + after);
  }

  // ---------------------------------------------------------------- forwarding to all

  /** The channel of a consumer, as its senders see it; `taken` are the packets a parked writer took directly. */
  class PacketChannel {
    const capacity: nat
    var packets: seq<Packet>
    var taken: seq<Packet>

    constructor (capacity: nat)
      ensures this.capacity == capacity && packets == [] && taken == []
    {
      this.capacity := capacity;
      packets, taken := [], [];
    }

    /** `parked` says whether the writer waits in its select. */
    method Send(p: Packet, parked: bool) returns (ok: bool)
      modifies this
      ensures
        var how := Place(|old(packets)|, capacity, parked);
        && (ok <==> !how.Dropped?)
        && packets == old(packets) + (if how.InBuffer? then [p] else [])
        && taken == old(taken) + (if how.ToWriter? then [p] else [])
    {
      if |packets| < capacity {
        packets := packets + [p];
        return true;
      }
      if parked && packets == [] {
        taken := taken + [p];
        return true;
      }
      return false;
    }
  }

  /** forwardToDownstreams, meeting the consumers in any order; each has a channel of its own. */
  method ForwardToDownstreams(downstreams: map<string, PacketChannel>, p: Packet, parked: set<string>)
      returns (dropped: set<string>)
    requires forall a, b :: a in downstreams && b in downstreams && a != b ==> downstreams[a] != downstreams[b]
    modifies downstreams.Values
    ensures dropped <= downstreams.Keys
    ensures forall c :: c in downstreams ==>
              var how := Place(|old(downstreams[c].packets)|, downstreams[c].capacity, c in parked);
              && (c in dropped <==> how.Dropped?)
              && downstreams[c].packets == old(downstreams[c].packets) + (if how.InBuffer? then [p] else [])
              && downstreams[c].taken == old(downstreams[c].taken) + (if how.ToWriter? then [p] else [])
  {
    dropped := {};
    var rest := downstreams.Keys;
    while rest != {}
      invariant rest <= downstreams.Keys && dropped <= downstreams.Keys - rest
      invariant forall c :: c in rest ==>
                  && downstreams[c].packets == old(downstreams[c].packets)
                  && downstreams[c].taken == old(downstreams[c].taken)
      invariant forall c :: c in downstreams.Keys - rest ==>
                  var how := Place(|old(downstreams[c].packets)|, downstreams[c].capacity, c in parked);
                  && (c in dropped <==> how.Dropped?)
                  && downstreams[c].packets == old(downstreams[c].packets) + (if how.InBuffer? then [p] else [])
                  && downstreams[c].taken == old(downstreams[c].taken) + (if how.ToWriter? then [p] else [])
    {
      var c :| c in rest;
      rest := rest - {c};
      var ok := downstreams[c].Send(p, c in parked);
      if !ok {
        dropped := dropped + {c};
      }
    }
  }
}
