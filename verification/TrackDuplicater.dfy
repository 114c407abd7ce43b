/**
 * The life cycle of a duplicated track: Bind and Unbind of the duplicater
 * (webrtc-agents/pkg/tracks/duplicate/duplicate.go) over the handle that
 * produces the packets (webrtc-agents/pkg/tracks/handle.go).  Bind and Unbind
 * touch the concurrent map of downstreams outside the mutex and the upstream
 * inside it; every interleaving of their atomic parts is a run.
 */
module TrackDuplicater {
  import opened Wrappers

  type Ctx = string

  // ---------------------------------------------------------------- the upstream handle

  datatype BindResult = Bound | NoOpusCodec | AlreadyBound

  function HandleBind(stopChan: set<string>, ctxId: string, hasOpus: bool): (BindResult, set<string>) {
    if !hasOpus then (NoOpusCodec, stopChan)
    else if ctxId in stopChan then (AlreadyBound, stopChan)
    else (Bound, stopChan + {ctxId})
  }

  /** The stop channels of a TrackHandle, by context id. */
  class TrackHandle {
    var stopChan: set<string>

    constructor ()
      ensures stopChan == {}
    {
      stopChan := {};
    }

    method Bind(ctxId: string, hasOpus: bool) returns (r: BindResult)
      modifies this
      ensures (r, stopChan) == HandleBind(old(stopChan), ctxId, hasOpus)
      ensures !hasOpus ==> r == NoOpusCodec && stopChan == old(stopChan)
      ensures hasOpus && ctxId in old(stopChan) ==> r == AlreadyBound && stopChan == old(stopChan)
      ensures hasOpus && ctxId !in old(stopChan) ==> r == Bound && stopChan == old(stopChan) + {ctxId}
    {
      if !hasOpus {
        return NoOpusCodec;
      }
      if ctxId in stopChan {
        return AlreadyBound;
      }
      stopChan := stopChan + {ctxId};
      return Bound;
    }

    method Unbind(ctxId: string)
      modifies this
      ensures stopChan == old(stopChan) - {ctxId}
    {
      if ctxId in stopChan {
        stopChan := stopChan - {ctxId};
      }
    }
  }

  // ---------------------------------------------------------------- the duplicater

  /** Where a call of Bind or Unbind is; the name says what it does next. */
  datatype Pc =
    | BindStore                // downstreams.Store
    | BindLock                 // mu.Lock
    | BindCheck                // sourceContext == nil ?
    | BindUpstream             // Upstream.Bind(sourceContext)
    | BindDelete               // failed: close the consumer and delete it
    | BindClear                // failed: sourceContext = nil
    | BindUnlock(ok: bool)     // mu.Unlock and return
    | UnbindLoad               // downstreams.Load, and close of the consumer found
    | UnbindDelete             // downstreams.Delete
    | UnbindLock               // mu.Lock, and start of consumerCount
    | UnbindCount              // Range under way
    | UnbindUpstream           // Upstream.Unbind(sourceContext)
    | UnbindClear              // sourceContext = nil
    | UnbindUnlock             // mu.Unlock and return

  datatype UpstreamCall = Bind(result: BindResult) | Unbind

  /**
   * `always` and `ever` are the contexts present all through, and at some time
   * during, the latest count.
   */
  datatype State = State(
    sourceId: string,
    downstreams: set<Ctx>,
    mu: Option<Ctx>,
    hasSource: bool,
    stopChan: set<string>,
    ops: map<Ctx, Pc>,
    always: set<Ctx>,
    ever: set<Ctx>,
    log: seq<UpstreamCall>)

  function Init(sourceId: string): State {
    State(sourceId, {}, None, false, {}, map[], {}, {}, [])
  }

  /**
   * `choice` is what the environment decides: whether the context offers an
   * Opus codec, and whether the count comes out as zero.
   */
  datatype Step = StartBind(c: Ctx) | StartUnbind(c: Ctx) | Advance(c: Ctx, choice: bool)

  /**
   * Range takes no snapshot: it meets every key present throughout, none that
   * was never present, and may or may not meet the others.
   */
  predicate CountMayBe(zero: bool, always: set<Ctx>, ever: set<Ctx>) {
    if zero then always == {} else ever != {}
  }

  predicate Enabled(s: State, step: Step) {
    match step
    case StartBind(c) => c !in s.ops
    case StartUnbind(c) => c !in s.ops
    case Advance(c, choice) =>
      c in s.ops && match s.ops[c]
                    case BindLock => s.mu.None?
                    case UnbindLock => s.mu.None?
                    case UnbindCount => CountMayBe(choice, s.always, s.ever)
                    case _ => true
  }

  function At(s: State, c: Ctx, pc: Pc): State {
    s.(ops := s.ops[c := pc])
  }

  function Return(s: State, c: Ctx): State {
    s.(ops := s.ops - {c}, mu := None)
  }

  function Stored(s: State, c: Ctx): State {
    s.(downstreams := s.downstreams + {c}, ever := s.ever + {c})
  }

  function Deleted(s: State, c: Ctx): State {
    s.(downstreams := s.downstreams - {c}, always := s.always - {c})
  }

  function Do(s: State, step: Step): State
    requires Enabled(s, step)
  {
    match step
    case StartBind(c) => At(s, c, BindStore)
    case StartUnbind(c) => At(s, c, UnbindLoad)
    case Advance(c, choice) =>
      match s.ops[c]
      case BindStore => At(Stored(s, c), c, BindLock)
      case BindLock => At(s.(mu := Some(c)), c, BindCheck)
      case BindCheck =>
        if s.hasSource then At(s, c, BindUnlock(true)) else At(s.(hasSource := true), c, BindUpstream)
      case BindUpstream =>
        var (r, chans) := HandleBind(s.stopChan, s.sourceId, choice);
        At(s.(stopChan := chans, log := s.log + [Bind(r)]), c, if r.Bound? then BindUnlock(true) else BindDelete)
      case BindDelete => At(Deleted(s, c), c, BindClear)
      case BindClear => At(s.(hasSource := false), c, BindUnlock(false))
      case BindUnlock(_) => Return(s, c)
      case UnbindLoad => At(s, c, if c in s.downstreams then UnbindDelete else UnbindLock)
      case UnbindDelete => At(Deleted(s, c), c, UnbindLock)
      case UnbindLock => At(s.(mu := Some(c), always := s.downstreams, ever := s.downstreams), c, UnbindCount)
      case UnbindCount => At(s, c, if choice && s.hasSource then UnbindUpstream else UnbindUnlock)
      case UnbindUpstream => At(s.(stopChan := s.stopChan - {s.sourceId}, log := s.log + [Unbind]), c, UnbindClear)
      case UnbindClear => At(s.(hasSource := false), c, UnbindUnlock)
      case UnbindUnlock => Return(s, c)
  }

  function Next(s: State, step: Step): State {
    if Enabled(s, step) then Do(s, step) else s
  }

  function Exec(s: State, steps: seq<Step>): State
    decreases |steps|
  {
    if steps == [] then s else Exec(Next(s, steps[0]), steps[1..])
  }

  // ---------------------------------------------------------------- invariant

  predicate UpstreamBound(s: State) {
    s.sourceId in s.stopChan
  }

  predicate HoldsMutex(pc: Pc) {
    !pc.BindStore? && !pc.BindLock? && !pc.UnbindLoad? && !pc.UnbindDelete? && !pc.UnbindLock?
  }

  ghost predicate MutexInv(s: State) {
    && (forall c :: c in s.ops ==> (HoldsMutex(s.ops[c]) <==> s.mu == Some(c)))
    && (s.mu.Some? ==> s.mu.value in s.ops)
  }

  /** A call binding its context has it in the map until it fails; one unbinding it has not once it deleted it. */
  predicate EntryFits(pc: Pc, present: bool) {
    match pc
    case BindStore => true
    case BindClear => !present
    case BindUnlock(ok) => ok <==> present
    case BindLock => present
    case BindCheck => present
    case BindUpstream => present
    case BindDelete => present
    case UnbindLoad => true
    case UnbindDelete => present
    case _ => !present
  }

  ghost predicate OwnEntryInv(s: State) {
    forall c :: c in s.ops ==> EntryFits(s.ops[c], c in s.downstreams)
  }

  /** The mutex holder is between changing sourceContext and changing the upstream, or about to. */
  predicate InTransition(s: State) {
    s.mu.Some? && s.mu.value in s.ops
    && match s.ops[s.mu.value]
       case BindUpstream => true
       case BindDelete => true
       case BindClear => true
       case UnbindUpstream => true
       case UnbindClear => true
       case _ => false
  }

  ghost predicate SourceInv(s: State) {
    && s.stopChan <= {s.sourceId}
    && (!InTransition(s) ==> (s.hasSource <==> UpstreamBound(s)))
    && (InTransition(s) ==> s.hasSource && (UpstreamBound(s) <==> s.ops[s.mu.value].UnbindUpstream?))
    && (forall c :: c in s.ops && s.ops[c].BindUnlock? ==> s.hasSource == s.ops[c].ok)
  }

  /** A consumer whose Bind has returned and whose Unbind has not begun. */
  predicate Settled(s: State, c: Ctx) {
    c in s.downstreams && c !in s.ops
  }

  ghost predicate SettledInv(s: State) {
    && (forall c :: Settled(s, c) ==> s.hasSource && !InTransition(s))
    && (s.mu.Some? && s.mu.value in s.ops && s.ops[s.mu.value].UnbindCount? ==>
          forall c :: Settled(s, c) ==> c in s.always)
  }

  /** This call has yet to count the consumers, or to clear the source. */
  predicate WillCheck(pc: Pc) {
    pc.UnbindLock? || pc.UnbindCount? || pc.UnbindUpstream? || pc.UnbindClear? || pc.BindClear?
  }

  ghost predicate Watched(s: State) {
    s.downstreams != {} || exists c :: c in s.ops && WillCheck(s.ops[c])
  }

  /** What was counted and is gone has been deleted by a call that now waits for the mutex. */
  ghost predicate CountInv(s: State) {
    && s.always <= s.ever
    && (s.mu.Some? && s.mu.value in s.ops && s.ops[s.mu.value].UnbindCount? ==>
          forall c :: c in s.ever ==>
            c != s.mu.value && (c in s.downstreams || (c in s.ops && s.ops[c].UnbindLock?)))
  }

  /** Binds of the upstream happen only while it is unbound, unbinds only while it is bound. */
  ghost predicate Alternates(log: seq<UpstreamCall>, bound: bool) {
    if log == [] then !bound
    else
      var before := log[..|log| - 1];
      match log[|log| - 1]
      case Bind(r) => !r.AlreadyBound? && Alternates(before, false) && (bound <==> r.Bound?)
      case Unbind => Alternates(before, true) && !bound
  }

  ghost predicate Inv(s: State) {
    && MutexInv(s) && OwnEntryInv(s) && SourceInv(s) && SettledInv(s) && CountInv(s)
    && (s.hasSource ==> Watched(s))
    && Alternates(s.log, UpstreamBound(s))
  }

  /** A step moves one call, and touches no entry but that call's own. */
  lemma Frame(s: State, step: Step)
    requires Enabled(s, step)
    ensures var t := Do(s, step);
      && (forall c :: c != step.c ==> (c in t.ops <==> c in s.ops) && (c in t.downstreams <==> c in s.downstreams))
      && (forall c :: c != step.c && c in s.ops ==> t.ops[c] == s.ops[c])
  {
  }

  lemma MutexStep(s: State, step: Step)
    requires MutexInv(s) && Enabled(s, step)
    ensures MutexInv(Do(s, step))
  {
    Frame(s, step);
  }

  lemma OwnEntryStep(s: State, step: Step)
    requires OwnEntryInv(s) && Enabled(s, step)
    ensures OwnEntryInv(Do(s, step))
  {
    Frame(s, step);
  }

  lemma SourceStep(s: State, step: Step)
    requires MutexInv(s) && SourceInv(s) && Enabled(s, step)
    ensures SourceInv(Do(s, step))
  {
  }

  lemma SettledStep(s: State, step: Step)
    requires MutexInv(s) && OwnEntryInv(s) && SourceInv(s) && SettledInv(s) && Enabled(s, step)
    ensures SettledInv(Do(s, step))
  {
    var t := Do(s, step);
    forall c | Settled(t, c)
      ensures t.hasSource && !InTransition(t)
      ensures t.mu.Some? && t.mu.value in t.ops && t.ops[t.mu.value].UnbindCount? ==> c in t.always
    {
      if step.Advance? && step.c == c {
        assert s.ops[c] == BindUnlock(true);
      } else {
        assert Settled(s, c);
      }
    }
  }

  lemma CountStep(s: State, step: Step)
    requires MutexInv(s) && OwnEntryInv(s) && CountInv(s) && Enabled(s, step)
    ensures CountInv(Do(s, step))
  {
  }

  lemma WatchedStep(s: State, step: Step)
    requires MutexInv(s) && OwnEntryInv(s) && SourceInv(s) && CountInv(s) && Enabled(s, step)
    requires s.hasSource ==> Watched(s)
    ensures Do(s, step).hasSource ==> Watched(Do(s, step))
  {
    var t := Do(s, step);
    if t.hasSource && t.downstreams == {} {
      if step.Advance? && WillCheck(s.ops[step.c]) {
        var c := step.c;
        if s.ops[c].UnbindCount? && !t.ops[c].UnbindUpstream? {
          // Something was counted, so it has been deleted since and its call waits for the mutex.
          var x :| x in s.ever;
          assert x in t.ops && WillCheck(t.ops[x]);
        } else {
          assert c in t.ops && WillCheck(t.ops[c]);
        }
      } else if s.downstreams != {} {
        assert step.c in t.ops && WillCheck(t.ops[step.c]);
      } else {
        var x :| x in s.ops && WillCheck(s.ops[x]);
        assert x in t.ops && WillCheck(t.ops[x]);
      }
    }
  }

  lemma LogStep(s: State, step: Step)
    requires MutexInv(s) && SourceInv(s) && Alternates(s.log, UpstreamBound(s)) && Enabled(s, step)
    ensures Alternates(Do(s, step).log, UpstreamBound(Do(s, step)))
  {
    var t := Do(s, step);
    if t.log != s.log {
      assert t.log[..|t.log| - 1] == s.log;
    }
  }

  lemma {:induction false} ExecInv(s: State, steps: seq<Step>)
    requires Inv(s)
    ensures Inv(Exec(s, steps)) && Exec(s, steps).sourceId == s.sourceId
    decreases |steps|
  {
    if steps == [] {
    } else {
      if Enabled(s, steps[0]) {
        MutexStep(s, steps[0]);
        OwnEntryStep(s, steps[0]);
        SourceStep(s, steps[0]);
        SettledStep(s, steps[0]);
        CountStep(s, steps[0]);
        WatchedStep(s, steps[0]);
        LogStep(s, steps[0]);
      }
      ExecInv(Next(s, steps[0]), steps[1..]);
    }
  }

  // ---------------------------------------------------------------- results about every run

  /** When no call is under way the upstream is bound exactly when some consumer exists. */
  lemma IdleMeansBoundIffConsumed(sourceId: string, steps: seq<Step>)
    requires Exec(Init(sourceId), steps).ops == map[]
    ensures var s := Exec(Init(sourceId), steps);
      && (UpstreamBound(s) <==> s.downstreams != {})
      && (s.hasSource <==> UpstreamBound(s))
      && s.mu.None?
  {
    ExecInv(Init(sourceId), steps);
    var s := Exec(Init(sourceId), steps);
    if s.downstreams != {} {
      var c :| c in s.downstreams;
      assert Settled(s, c);
    }
  }

  /** In every state, whatever else is under way, a consumer that is bound has its upstream bound. */
  lemma SettledConsumerIsFed(sourceId: string, steps: seq<Step>, c: Ctx)
    ensures var s := Exec(Init(sourceId), steps); Settled(s, c) ==> UpstreamBound(s)
  {
    ExecInv(Init(sourceId), steps);
  }

  /** The handle sees Bind and Unbind strictly alternate and never answers that it is already bound. */
  lemma UpstreamCallsAlternate(sourceId: string, steps: seq<Step>)
    ensures var s := Exec(Init(sourceId), steps);
      && Alternates(s.log, UpstreamBound(s))
      && Bind(AlreadyBound) !in s.log
  {
    ExecInv(Init(sourceId), steps);
    var s := Exec(Init(sourceId), steps);
    NeverAlreadyBound(s.log, UpstreamBound(s));
  }

  lemma {:induction false} NeverAlreadyBound(log: seq<UpstreamCall>, bound: bool)
    requires Alternates(log, bound)
    ensures Bind(AlreadyBound) !in log
  {
    if log == [] {
    } else {
      var before, last := log[..|log| - 1], log[|log| - 1];
      NeverAlreadyBound(before, last.Unbind?);
      assert log == before + [last];
    }
  }

  /** Some call can always go on: the holder of the mutex if there is one, any call otherwise. */
  lemma NoDeadlock(sourceId: string, steps: seq<Step>)
    ensures var s := Exec(Init(sourceId), steps);
      s.ops != map[] <==> exists c, choice :: Enabled(s, Advance(c, choice))
  {
    ExecInv(Init(sourceId), steps);
    var s := Exec(Init(sourceId), steps);
    if s.ops != map[] {
      var any :| any in s.ops;
      var c := if s.mu.Some? then s.mu.value else any;
      assert Enabled(s, Advance(c, s.always == {})) || Enabled(s, Advance(c, true));
    }
  }

  // ---------------------------------------------------------------- every call returns

  /** The steps a call has left, at most. */
  function Left(pc: Pc): nat {
    match pc
    case BindStore => 7
    case BindLock => 6
    case BindCheck => 5
    case BindUpstream => 4
    case BindDelete => 3
    case BindClear => 2
    case BindUnlock(_) => 1
    case UnbindLoad => 7
    case UnbindDelete => 6
    case UnbindLock => 5
    case UnbindCount => 4
    case UnbindUpstream => 3
    case UnbindClear => 2
    case UnbindUnlock => 1
  }

  /** The call has ended or is nearer to its end, and the other calls are where they were. */
  ghost predicate Nearer(ops: map<Ctx, Pc>, later: map<Ctx, Pc>, c: Ctx) {
    && c in ops && later.Keys <= ops.Keys
    && (c in later ==> Left(later[c]) < Left(ops[c]))
    && forall other :: other in ops && other != c ==> other in later && later[other] == ops[other]
  }

  lemma AdvanceLowers(s: State, c: Ctx, choice: bool)
    requires Enabled(s, Advance(c, choice))
    ensures Nearer(s.ops, Do(s, Advance(c, choice)).ops, c)
  {
  }

  /** The calls with at least i steps left. */
  function AtLeast(ops: map<Ctx, Pc>, i: nat): set<Ctx> {
    set c | c in ops && Left(ops[c]) >= i
  }

  /** The steps left to all calls together: the calls with one, with two, and so on up to n. */
  function Work(ops: map<Ctx, Pc>, n: nat): nat {
    if n == 0 then 0 else |AtLeast(ops, n)| + Work(ops, n - 1)
  }

  lemma AtLeastLowers(ops: map<Ctx, Pc>, later: map<Ctx, Pc>, c: Ctx, i: nat)
    requires Nearer(ops, later, c)
    ensures |AtLeast(later, i)| + (if Left(ops[c]) == i then 1 else 0) <= |AtLeast(ops, i)|
  {
    if c in AtLeast(ops, i) && c !in AtLeast(later, i) {
      assert AtLeast(later, i) == AtLeast(ops, i) - {c};
    } else {
      assert AtLeast(later, i) == AtLeast(ops, i);
    }
  }

  lemma {:induction false} WorkLowers(ops: map<Ctx, Pc>, later: map<Ctx, Pc>, c: Ctx, n: nat)
    requires Nearer(ops, later, c)
    ensures Work(later, n) + (if Left(ops[c]) <= n then 1 else 0) <= Work(ops, n)
  {
    if n == 0 {
      assert Left(ops[c]) > 0;
    } else {
      WorkLowers(ops, later, c, n - 1);
      AtLeastLowers(ops, later, c, n);
    }
  }

  lemma AtLeastFits(ops: map<Ctx, Pc>, i: nat)
    ensures |AtLeast(ops, i)| <= |ops|
  {
    var calls, some := ops.Keys, AtLeast(ops, i);
    assert calls == some + (calls - some);
  }

  lemma {:induction false} WorkAtMost(ops: map<Ctx, Pc>, n: nat)
    ensures Work(ops, n) <= n * |ops|
  {
    if n == 0 {
    } else {
      WorkAtMost(ops, n - 1);
      AtLeastFits(ops, n);
      assert n * |ops| == (n - 1) * |ops| + |ops|;
    }
  }

  /** Every step of the list is one of a call under way, and enabled when its turn comes. */
  ghost predicate Progresses(s: State, steps: seq<Step>)
    decreases |steps|
  {
    steps == [] || (steps[0].Advance? && Enabled(s, steps[0]) && Progresses(Do(s, steps[0]), steps[1..]))
  }

  lemma {:induction false} ProgressIsBounded(s: State, steps: seq<Step>)
    requires Progresses(s, steps)
    ensures |steps| <= Work(s.ops, 7) <= 7 * |s.ops|
    decreases |steps|
  {
    WorkAtMost(s.ops, 7);
    if steps == [] {
    } else {
      var t := Do(s, steps[0]);
      AdvanceLowers(s, steps[0].c, steps[0].choice);
      WorkLowers(s.ops, t.ops, steps[0].c, 7);
      ProgressIsBounded(t, steps[1..]);
    }
  }

  lemma {:induction false} ExecAppend(s: State, a: seq<Step>, b: seq<Step>)
    ensures Exec(s, a + b) == Exec(Exec(s, a), b)
    decreases |a|
  {
    if a == [] {
      assert a + b == b;
    } else {
      assert (a + b)[1..] == a[1..] + b;
      ExecAppend(Next(s, a[0]), a[1..], b);
    }
  }

  ghost predicate AtRest(s: State) {
    forall c, choice :: !Enabled(s, Advance(c, choice))
  }

  /**
   * Whatever has happened, once the calls under way have gone as far as they
   * can, all of them have returned and the upstream is bound if and only if
   * some consumer exists; each takes at most seven steps of its own.
   */
  lemma CallsReturn(sourceId: string, before: seq<Step>, after: seq<Step>)
    requires Progresses(Exec(Init(sourceId), before), after) && AtRest(Exec(Exec(Init(sourceId), before), after))
    ensures
      var s := Exec(Init(sourceId), before);
      var t := Exec(s, after);
      && |after| <= 7 * |s.ops|
      && t.ops == map[]
      && (UpstreamBound(t) <==> t.downstreams != {})
  {
    ProgressIsBounded(Exec(Init(sourceId), before), after);
    ExecAppend(Init(sourceId), before, after);
    NoDeadlock(sourceId, before + after);
    IdleMeansBoundIffConsumed(sourceId, before + after);
  }

  // ---------------------------------------------------------------- what one call does

  /** n steps of one call. */
  function Steps(c: Ctx, choice: bool, n: nat): seq<Step> {
    if n == 0 then [] else [Advance(c, choice)] + Steps(c, choice, n - 1)
  }

  /** The state after n steps of one call and no other. */
  function Alone(s: State, c: Ctx, choice: bool, n: nat): State
    decreases n
  {
    if n == 0 then s else Alone(Next(s, Advance(c, choice)), c, choice, n - 1)
  }

  lemma {:induction false} ExecAlone(s: State, c: Ctx, choice: bool, n: nat)
    ensures Exec(s, Steps(c, choice, n)) == Alone(s, c, choice, n)
    decreases n
  {
    if n == 0 {
    } else {
      assert Steps(c, choice, n)[1..] == Steps(c, choice, n - 1);
      ExecAlone(Next(s, Advance(c, choice)), c, choice, n - 1);
    }
  }

  lemma ExecCall(s: State, start: Step, c: Ctx, choice: bool, n: nat)
    ensures Exec(s, [start] + Steps(c, choice, n)) == Alone(Next(s, start), c, choice, n)
  {
    assert ([start] + Steps(c, choice, n))[1..] == Steps(c, choice, n);
    ExecAlone(Next(s, start), c, choice, n);
  }

  lemma {:induction false} AloneMore(s: State, c: Ctx, choice: bool, m: nat, n: nat)
    ensures Alone(s, c, choice, m + n) == Alone(Alone(s, c, choice, m), c, choice, n)
    decreases m
  {
    if m == 0 {
    } else {
      AloneMore(Next(s, Advance(c, choice)), c, choice, m - 1, n);
    }
  }

  /** Once a call has returned there are no more steps of it. */
  lemma {:induction false} AloneReturned(s: State, c: Ctx, choice: bool, n: nat)
    requires c !in s.ops
    ensures Alone(s, c, choice, n) == s
  {
    if n == 0 {
    } else {
      AloneReturned(s, c, choice, n - 1);
    }
  }

  /** The call with its latest step done and the next one given. */
  function Going(s: State, c: Ctx, pc: Pc): State {
    s.(ops := s.ops[c := pc])
  }

  /** The consumer has been closed and deleted, if there was one. */
  function Deleting(s: State, c: Ctx): State {
    Going(if c in s.downstreams then Deleted(s, c) else s.(downstreams := s.downstreams - {c}), c, UnbindLock)
  }

  lemma UnbindDeletes(s: State, c: Ctx, choice: bool) returns (n: nat)
    requires c !in s.ops
    ensures n <= 2 && Alone(Next(s, StartUnbind(c)), c, choice, n) == Deleting(s, c)
  {
    n := if c in s.downstreams then 2 else 1;
    var s1 := Next(s, StartUnbind(c));
    var s2 := Next(s1, Advance(c, choice));
    var s3 := Next(s2, Advance(c, choice));
    assert Alone(s1, c, choice, 1) == Alone(s2, c, choice, 0) == s2;
    assert Alone(s1, c, choice, 2) == Alone(s2, c, choice, 1) == Alone(s3, c, choice, 0) == s3;
    if c in s.downstreams {
      assert s3 == Deleting(s, c);
    } else {
      assert s.downstreams - {c} == s.downstreams;
      assert s2 == Deleting(s, c);
    }
  }

  /** The consumers are counted, and the upstream is unbound if there are none. */
  lemma UnbindCounts(s: State, c: Ctx)
    requires c in s.ops && s.ops[c].UnbindLock? && s.mu.None?
    ensures
      var none := s.downstreams == {};
      var t := Alone(s, c, none, 5);
      && t.ops == s.ops - {c} && t.mu.None? && t.downstreams == s.downstreams && t.sourceId == s.sourceId
      && (none && s.hasSource ==> !t.hasSource && t.stopChan == s.stopChan - {s.sourceId} && t.log == s.log + [Unbind])
      && (!none || !s.hasSource ==> t.hasSource == s.hasSource && t.stopChan == s.stopChan && t.log == s.log)
  {
    var none := s.downstreams == {};
    var s1 := Next(s, Advance(c, none));
    var s2 := Next(s1, Advance(c, none));
    var s3 := Next(s2, Advance(c, none));
    assert Alone(s, c, none, 5) == Alone(s3, c, none, 2);
    if none && s.hasSource {
      var s4 := Next(s3, Advance(c, none));
      var s5 := Next(s4, Advance(c, none));
      assert Alone(s3, c, none, 2) == Alone(s4, c, none, 1) == Alone(s5, c, none, 0) == s5;
    } else {
      AloneReturned(s3, c, none, 2);
    }
  }

  /**
   * An Unbind left alone, in any state any run leads to while nobody holds the
   * mutex, returns having removed its consumer and no other, and leaves the
   * upstream bound exactly when it was and consumers remain.
   */
  lemma UnbindAlone(sourceId: string, steps: seq<Step>, c: Ctx)
    requires
      var s := Exec(Init(sourceId), steps);
      s.mu.None? && c !in s.ops
    ensures
      var s := Exec(Init(sourceId), steps);
      var t := Exec(s, [StartUnbind(c)] + Steps(c, s.downstreams - {c} == {}, 7));
      && t.ops == s.ops && t.mu.None? && t.downstreams == s.downstreams - {c}
      && (sourceId in t.stopChan <==> sourceId in s.stopChan && s.downstreams - {c} != {})
      && (c in s.downstreams ==> sourceId in s.stopChan)
      && t.log == s.log + if sourceId in s.stopChan && s.downstreams - {c} == {} then [Unbind] else []
  {
    var s := Exec(Init(sourceId), steps);
    FreeMutex(sourceId, steps);
    ExecCall(s, StartUnbind(c), c, s.downstreams - {c} == {}, 7);
    UnbindFrom(s, c);
    if c in s.downstreams {
      SettledConsumerIsFed(sourceId, steps, c);
    }
  }

  /** While nobody holds the mutex the duplicater knows whether its upstream is bound. */
  lemma FreeMutex(sourceId: string, steps: seq<Step>)
    ensures
      var s := Exec(Init(sourceId), steps);
      s.sourceId == sourceId && (s.mu.None? ==> (s.hasSource <==> sourceId in s.stopChan))
  {
    ExecInv(Init(sourceId), steps);
  }

  lemma UnbindFrom(s: State, c: Ctx)
    requires s.mu.None? && c !in s.ops && (s.hasSource <==> s.sourceId in s.stopChan)
    ensures
      var t := Alone(Next(s, StartUnbind(c)), c, s.downstreams - {c} == {}, 7);
      && t.ops == s.ops && t.mu.None? && t.downstreams == s.downstreams - {c}
      && (s.sourceId in t.stopChan <==> s.sourceId in s.stopChan && s.downstreams - {c} != {})
      && t.log == s.log + if s.sourceId in s.stopChan && s.downstreams - {c} == {} then [Unbind] else []
  {
    var none := s.downstreams - {c} == {};
    var s1 := Next(s, StartUnbind(c));
    var n := UnbindDeletes(s, c, none);
    var u := Deleting(s, c);
    AloneMore(s1, c, none, n, 7 - n);
    UnbindCountsOnce(u, c, 2 - n);
    assert u.ops - {c} == s.ops;
  }

  lemma UnbindCountsOnce(s: State, c: Ctx, n: nat)
    requires c in s.ops && s.ops[c].UnbindLock? && s.mu.None? && (s.hasSource <==> s.sourceId in s.stopChan)
    ensures
      var none := s.downstreams == {};
      var t := Alone(s, c, none, 5 + n);
      && t.ops == s.ops - {c} && t.mu.None? && t.downstreams == s.downstreams
      && (s.sourceId in t.stopChan <==> s.sourceId in s.stopChan && !none)
      && t.log == s.log + if s.sourceId in s.stopChan && none then [Unbind] else []
  {
    var none := s.downstreams == {};
    UnbindCounts(s, c);
    AloneMore(s, c, none, 5, n);
    AloneReturned(Alone(s, c, none, 5), c, none, n);
  }

  /** The consumer is stored and the mutex taken. */
  lemma BindStores(s: State, c: Ctx, choice: bool)
    requires c !in s.ops && s.mu.None?
    ensures Alone(Next(s, StartBind(c)), c, choice, 2)
         == Going(s.(downstreams := s.downstreams + {c}, ever := s.ever + {c}, mu := Some(c)), c, BindCheck)
  {
    var s1 := Next(s, StartBind(c));
    var s2 := Next(s1, Advance(c, choice));
    var s3 := Next(s2, Advance(c, choice));
    assert Alone(s1, c, choice, 2) == Alone(s2, c, choice, 1) == Alone(s3, c, choice, 0) == s3;
    assert s3 == Going(s.(downstreams := s.downstreams + {c}, ever := s.ever + {c}, mu := Some(c)), c, BindCheck);
  }

  /** The upstream is bound, if it is not, or the consumer deleted again. */
  lemma BindChecks(s: State, c: Ctx, hasOpus: bool)
    requires c in s.ops && s.ops[c].BindCheck? && s.hasSource == (s.sourceId in s.stopChan)
    ensures
      var t := Alone(s, c, hasOpus, 5);
      && t.ops == s.ops - {c} && t.mu.None? && t.sourceId == s.sourceId
      && (s.hasSource ==> t.stopChan == s.stopChan && t.downstreams == s.downstreams && t.log == s.log)
      && (!s.hasSource && hasOpus ==>
            && t.stopChan == s.stopChan + {s.sourceId} && t.downstreams == s.downstreams
            && t.log == s.log + [Bind(Bound)])
      && (!s.hasSource && !hasOpus ==>
            && t.stopChan == s.stopChan && t.downstreams == s.downstreams - {c}
            && t.log == s.log + [Bind(NoOpusCodec)])
  {
    var s1 := Next(s, Advance(c, hasOpus));
    var s2 := Next(s1, Advance(c, hasOpus));
    assert Alone(s, c, hasOpus, 5) == Alone(s1, c, hasOpus, 4) == Alone(s2, c, hasOpus, 3);
    if s.hasSource {
      AloneReturned(s2, c, hasOpus, 3);
    } else {
      var s3 := Next(s2, Advance(c, hasOpus));
      assert Alone(s2, c, hasOpus, 3) == Alone(s3, c, hasOpus, 2);
      if hasOpus {
        AloneReturned(s3, c, hasOpus, 2);
      } else {
        var s4 := Next(s3, Advance(c, hasOpus));
        var s5 := Next(s4, Advance(c, hasOpus));
        assert Alone(s3, c, hasOpus, 2) == Alone(s4, c, hasOpus, 1) == Alone(s5, c, hasOpus, 0) == s5;
      }
    }
  }

  /**
   * A Bind left alone returns with its consumer stored and the upstream bound
   * if the upstream was bound or the context offers Opus, and otherwise with
   * its consumer absent and the upstream unbound.
   */
  lemma BindAlone(sourceId: string, steps: seq<Step>, c: Ctx, hasOpus: bool)
    requires
      var s := Exec(Init(sourceId), steps);
      s.mu.None? && c !in s.ops
    ensures
      var s := Exec(Init(sourceId), steps);
      var t := Exec(s, [StartBind(c)] + Steps(c, hasOpus, 7));
      && t.ops == s.ops && t.mu.None?
      && (sourceId in s.stopChan || hasOpus ==> t.downstreams == s.downstreams + {c} && sourceId in t.stopChan)
      && (sourceId !in s.stopChan && !hasOpus ==> t.downstreams == s.downstreams - {c} && sourceId !in t.stopChan)
      && t.log == s.log + if sourceId in s.stopChan then [] else [Bind(if hasOpus then Bound else NoOpusCodec)]
  {
    var s := Exec(Init(sourceId), steps);
    FreeMutex(sourceId, steps);
    ExecCall(s, StartBind(c), c, hasOpus, 7);
    BindFrom(s, c, hasOpus);
  }

  lemma BindFrom(s: State, c: Ctx, hasOpus: bool)
    requires s.mu.None? && c !in s.ops && (s.hasSource <==> s.sourceId in s.stopChan)
    ensures
      var t, bound := Alone(Next(s, StartBind(c)), c, hasOpus, 7), s.sourceId in s.stopChan;
      && t.ops == s.ops && t.mu.None?
      && (bound || hasOpus ==> t.downstreams == s.downstreams + {c} && s.sourceId in t.stopChan)
      && (!bound && !hasOpus ==> t.downstreams == s.downstreams - {c} && s.sourceId !in t.stopChan)
      && t.log == s.log + if bound then [] else [Bind(if hasOpus then Bound else NoOpusCodec)]
  {
    BindStores(s, c, hasOpus);
    var u := Going(s.(downstreams := s.downstreams + {c}, ever := s.ever + {c}, mu := Some(c)), c, BindCheck);
    AloneMore(Next(s, StartBind(c)), c, hasOpus, 2, 5);
    BindChecks(u, c, hasOpus);
    assert s.ops[c := BindCheck] - {c} == s.ops;
    assert s.downstreams + {c} - {c} == s.downstreams - {c};
  }

  /** A run goes on with one step at a time, and a step that is not enabled is skipped. */
  lemma ExecOneMore(s: State, steps: seq<Step>, step: Step)
    ensures Exec(s, []) == s && Exec(s, steps + [step]) == Next(Exec(s, steps), step)
  {
    ExecAppend(s, steps, [step]);
    assert [step][1..] == [];
  }
}
