/**
 * The two lock-free counters over a shared concurrent map, under every
 * interleaving of their atomic map operations.
 */

/** The server's session counter (webrtc-server/pkg/handler/handle_counter.go). */
module ServerCounter {
  type Key = string
  type Id = nat

  datatype Call =
    | Loading(key: Key, currentVal: int)
    | Swapping(key: Key, currentVal: int)
    | Returned(key: Key, value: int)

  datatype Success = Success(id: Id, key: Key, value: int)

  /** The map, the calls started so far, and the successful swaps in order. */
  datatype State = State(store: map<Key, int>, calls: map<Id, Call>, log: seq<Success>)

  const INIT := State(map[], map[], [])

  datatype Step = Start(id: Id, key: Key) | LoadOrStore(id: Id) | CompareAndSwap(id: Id)

  function Next(s: State, step: Step): State {
    match step
    case Start(id, key) =>
      if id in s.calls then s else s.(calls := s.calls[id := Loading(key, 0)])
    case LoadOrStore(id) =>
      if id !in s.calls || !s.calls[id].Loading? then s
      else
        var Loading(key, v) := s.calls[id];
        if key in s.store then s.(calls := s.calls[id := Swapping(key, s.store[key])])
        else s.(store := s.store[key := v], calls := s.calls[id := Swapping(key, v)])
    case CompareAndSwap(id) =>
      if id !in s.calls || !s.calls[id].Swapping? then s
      else
        var Swapping(key, v) := s.calls[id];
        if key in s.store && s.store[key] == v then
          State(s.store[key := v + 1], s.calls[id := Returned(key, v)], s.log + [Success(id, key, v)])
        else s.(calls := s.calls[id := Loading(key, v)])
  }

  function Exec(s: State, steps: seq<Step>): State
    decreases |steps|
  {
    if steps == [] then s else Exec(Next(s, steps[0]), steps[1..])
  }

  /** The values returned for a key, in the order of the swaps. */
  function Returns(log: seq<Success>, key: Key): seq<int> {
    if log == [] then []
    else
      var l := log[|log| - 1];
      Returns(log[..|log| - 1], key) + if l.key == key then [l.value] else []
  }

  /** The map holds the number of increments, and calls under way know a value it has held. */
  ghost predicate StoreInv(s: State) {
    && (forall key :: key in s.store ==> s.store[key] == |Returns(s.log, key)|)
    && (forall key :: key !in s.store ==> Returns(s.log, key) == [])
    && (forall key, j :: 0 <= j < |Returns(s.log, key)| ==> Returns(s.log, key)[j] == j)
    && (forall id :: id in s.calls && s.calls[id].Loading? && s.calls[id].key !in s.store ==>
          s.calls[id].currentVal == 0)
    && (forall id :: id in s.calls && s.calls[id].Swapping? ==> s.calls[id].key in s.store)
  }

  ghost predicate Logged(s: State, id: Id)
    requires id in s.calls && s.calls[id].Returned?
  {
    exists i :: 0 <= i < |s.log| && s.log[i] == Success(id, s.calls[id].key, s.calls[id].value)
  }

  /** Calls that returned and entries of the log match one to one. */
  ghost predicate LogInv(s: State) {
    && (forall i, j :: 0 <= i < j < |s.log| ==> s.log[i].id != s.log[j].id)
    && (forall i :: 0 <= i < |s.log| ==>
          s.log[i].id in s.calls && s.calls[s.log[i].id] == Returned(s.log[i].key, s.log[i].value))
    && (forall id :: id in s.calls && s.calls[id].Returned? ==> Logged(s, id))
  }

  ghost predicate Inv(s: State) {
    StoreInv(s) && LogInv(s)
  }

  lemma ReturnsAppend(log: seq<Success>, l: Success, key: Key)
    ensures Returns(log + [l], key) == Returns(log, key) + if l.key == key then [l.value] else []
  {
    assert (log + [l])[..|log|] == log;
  }

  predicate Swaps(s: State, step: Step) {
    && step.CompareAndSwap? && step.id in s.calls && s.calls[step.id].Swapping?
    && s.calls[step.id].key in s.store && s.store[s.calls[step.id].key] == s.calls[step.id].currentVal
  }

  lemma LoggedKept(s: State, t: State, id: Id)
    requires id in s.calls && s.calls[id].Returned? && Logged(s, id)
    requires s.log <= t.log && id in t.calls && t.calls[id] == s.calls[id]
    ensures Logged(t, id)
  {
    var i :| 0 <= i < |s.log| && s.log[i] == Success(id, s.calls[id].key, s.calls[id].value);
    assert t.log[i] == s.log[i];
  }

  lemma SwapStore(s: State, step: Step)
    requires StoreInv(s) && Swaps(s, step)
    ensures StoreInv(Next(s, step))
  {
    var t := Next(s, step);
    var l := t.log[|s.log|];
    forall key
      ensures Returns(t.log, key) == Returns(s.log, key) + if l.key == key then [l.value] else []
    {
      ReturnsAppend(s.log, l, key);
    }
  }

  lemma SwapLog(s: State, step: Step)
    requires LogInv(s) && Swaps(s, step)
    ensures LogInv(Next(s, step))
  {
    var t, id := Next(s, step), step.id;
    assert t.log[|s.log|] == Success(id, s.calls[id].key, s.calls[id].currentVal);
    forall other | other in t.calls && t.calls[other].Returned?
      ensures Logged(t, other)
    {
      if other != id {
        LoggedKept(s, t, other);
      }
    }
  }

  lemma OtherStepStore(s: State, step: Step)
    requires StoreInv(s) && !Swaps(s, step)
    ensures StoreInv(Next(s, step)) && Next(s, step).log == s.log
  {
    match step
    case Start(id, key) =>
    case LoadOrStore(id) =>
    case CompareAndSwap(id) =>
  }

  lemma OtherStepLog(s: State, step: Step)
    requires LogInv(s) && !Swaps(s, step)
    ensures LogInv(Next(s, step))
  {
    var t := Next(s, step);
    assert t.log == s.log;
    forall id | id in t.calls && t.calls[id].Returned?
      ensures Logged(t, id)
    {
      LoggedKept(s, t, id);
    }
  }

  lemma {:induction false} ExecInv(s: State, steps: seq<Step>)
    requires Inv(s)
    ensures Inv(Exec(s, steps))
    decreases |steps|
  {
    if steps == [] {
    } else {
      if Swaps(s, steps[0]) {
        SwapStore(s, steps[0]);
        SwapLog(s, steps[0]);
      } else {
        OtherStepStore(s, steps[0]);
        OtherStepLog(s, steps[0]);
      }
      ExecInv(Next(s, steps[0]), steps[1..]);
    }
  }

  /**
   * The completed increments of a key return 0, 1, 2, ... in the order of
   * their swaps; each call that returned did so for exactly one swap.
   */
  lemma IncrementsAreLinearizable(steps: seq<Step>, key: Key)
    ensures
      var s := Exec(INIT, steps);
      && Returns(s.log, key) == seq(|Returns(s.log, key)|, j => j)
      && (key in s.store ==> s.store[key] == |Returns(s.log, key)|)
      && (forall id :: id in s.calls && s.calls[id].Returned? ==>
            exists i :: 0 <= i < |s.log| && s.log[i] == Success(id, s.calls[id].key, s.calls[id].value))
      && (forall i, j :: 0 <= i < j < |s.log| ==> s.log[i].id != s.log[j].id)
  {
    ExecInv(INIT, steps);
    var s := Exec(INIT, steps);
    assert forall id :: id in s.calls && s.calls[id].Returned? ==> Logged(s, id);
  }

  /** Nobody waits for anybody: a call left alone for two steps returns the number of increments before it. */
  lemma UndisturbedCallReturns(steps: seq<Step>, id: Id)
    requires var s := Exec(INIT, steps); id in s.calls && s.calls[id].Loading?
    ensures
      var s := Exec(INIT, steps);
      var t := Next(Next(s, LoadOrStore(id)), CompareAndSwap(id));
      t.calls[id] == Returned(s.calls[id].key, |Returns(s.log, s.calls[id].key)|)
  {
    ExecInv(INIT, steps);
    assert StoreInv(Exec(INIT, steps));
  }

  /** A run goes on with one step at a time, and a step that is not enabled is skipped. */
  lemma {:induction false} ExecOneMore(s: State, steps: seq<Step>, step: Step)
    ensures Exec(s, []) == s && Exec(s, steps + [step]) == Next(Exec(s, steps), step)
    decreases |steps|
  {
    if steps == [] {
      assert (steps + [step])[1..] == [];
    } else {
      assert (steps + [step])[1..] == steps[1..] + [step];
      ExecOneMore(Next(s, steps[0]), steps[1..], step);
    }
  }

  /** An increment called and left alone returns what the counter holds, 0 if there is none, and leaves one more. */
  lemma UndisturbedIncrement(s: State, id: Id, key: Key)
    requires id !in s.calls
    ensures
      var t := Next(Next(Next(s, Start(id, key)), LoadOrStore(id)), CompareAndSwap(id));
      var before := if key in s.store then s.store[key] else 0;
      && id in t.calls && t.calls[id] == Returned(key, before)
      && t.store == s.store[key := before + 1]
  {
  }
}

/** The counter bot (webrtc-agents/pkg/handlers/counter_dc_handler.go). */
module BotCounter {
  type Key = string
  type Id = nat

  datatype Call =
    | Loading(key: Key)
    | Swapping(key: Key, val: int)
    | Returned(key: Key, newValue: int)

  datatype Event = Increased(id: Id, key: Key, newValue: int) | WasReset(key: Key)

  datatype State = State(counters: map<Key, int>, calls: map<Id, Call>, log: seq<Event>)

  const INIT := State(map[], map[], [])

  datatype Step = Start(id: Id, key: Key) | LoadOrStore(id: Id) | CompareAndSwap(id: Id) | Reset(key: Key)

  function Next(s: State, step: Step): State {
    match step
    case Start(id, key) =>
      if id in s.calls then s else s.(calls := s.calls[id := Loading(key)])
    case LoadOrStore(id) =>
      if id !in s.calls || !s.calls[id].Loading? then s
      else
        var key := s.calls[id].key;
        if key in s.counters then s.(calls := s.calls[id := Swapping(key, s.counters[key])])
        else s.(counters := s.counters[key := 0], calls := s.calls[id := Swapping(key, 0)])
    case CompareAndSwap(id) =>
      if id !in s.calls || !s.calls[id].Swapping? then s
      else
        var Swapping(key, val) := s.calls[id];
        if key in s.counters && s.counters[key] == val then
          State(s.counters[key := val + 1], s.calls[id := Returned(key, val + 1)],
            s.log + [Increased(id, key, val + 1)])
        else s.(calls := s.calls[id := Loading(key)])
    case Reset(key) =>
      s.(counters := s.counters[key := 0], log := s.log + [WasReset(key)])
  }

  function Exec(s: State, steps: seq<Step>): State
    decreases |steps|
  {
    if steps == [] then s else Exec(Next(s, steps[0]), steps[1..])
  }

  /** The increments of a key since it was last reset. */
  function SinceReset(log: seq<Event>, key: Key): nat {
    if log == [] then 0
    else
      var e, before := log[|log| - 1], SinceReset(log[..|log| - 1], key);
      if e.key != key then before else if e.WasReset? then 0 else before + 1
  }

  /** The map holds the increments since the last reset. */
  ghost predicate CountersInv(s: State) {
    && (forall key :: key in s.counters ==> s.counters[key] == SinceReset(s.log, key))
    && (forall key :: key !in s.counters ==> SinceReset(s.log, key) == 0)
  }

  /** Entry i of the log is the increment its call returned, and counts from the last reset before it. */
  ghost predicate Recorded(s: State, i: nat)
    requires i < |s.log|
  {
    var e := s.log[i];
    e.Increased? ==>
      && e.newValue == 1 + SinceReset(s.log[..i], e.key)
      && e.id in s.calls && s.calls[e.id] == Returned(e.key, e.newValue)
  }

  ghost predicate Logged(s: State, id: Id)
    requires id in s.calls && s.calls[id].Returned?
  {
    exists i :: 0 <= i < |s.log| && s.log[i] == Increased(id, s.calls[id].key, s.calls[id].newValue)
  }

  ghost predicate LogInv(s: State) {
    && (forall i :: 0 <= i < |s.log| ==> Recorded(s, i))
    && (forall i, j :: 0 <= i < j < |s.log| && s.log[i].Increased? && s.log[j].Increased? ==>
          s.log[i].id != s.log[j].id)
    && (forall id :: id in s.calls && s.calls[id].Returned? ==> Logged(s, id))
  }

  ghost predicate Inv(s: State) {
    CountersInv(s) && LogInv(s)
  }

  /** Calls that returned stay as they are, and the log only grows. */
  ghost predicate Extends(s: State, t: State) {
    && s.log <= t.log
    && forall id :: id in s.calls && s.calls[id].Returned? ==> id in t.calls && t.calls[id] == s.calls[id]
  }

  lemma RecordedKept(s: State, t: State, i: nat)
    requires i < |s.log| && Recorded(s, i) && Extends(s, t)
    ensures Recorded(t, i)
  {
    assert t.log[..i] == s.log[..i];
  }

  lemma LoggedKept(s: State, t: State, id: Id)
    requires id in s.calls && s.calls[id].Returned? && Logged(s, id) && Extends(s, t)
    ensures Logged(t, id)
  {
    var i :| 0 <= i < |s.log| && s.log[i] == Increased(id, s.calls[id].key, s.calls[id].newValue);
    assert t.log[i] == s.log[i];
  }

  /** An event that the counter map reflects. */
  lemma CountersStep(s: State, t: State, e: Event)
    requires CountersInv(s) && t.log == s.log + [e]
    requires e.Increased? ==> e.newValue == 1 + SinceReset(s.log, e.key)
    requires t.counters == s.counters[e.key := if e.Increased? then e.newValue else 0]
    ensures CountersInv(t)
  {
    assert t.log[..|s.log|] == s.log;
  }

  lemma SwapLog(s: State, t: State, e: Event)
    requires LogInv(s) && e.Increased? && t.log == s.log + [e]
    requires e.newValue == 1 + SinceReset(s.log, e.key)
    requires e.id in s.calls && !s.calls[e.id].Returned? && t.calls == s.calls[e.id := Returned(e.key, e.newValue)]
    ensures LogInv(t)
  {
    var n := |s.log|;
    assert t.log[..n] == s.log && t.log[n] == e;
    forall i | 0 <= i < n
      ensures Recorded(t, i) && t.log[i] == s.log[i]
    {
      RecordedKept(s, t, i);
    }
    forall i | 0 <= i < n && t.log[i].Increased?
      ensures t.log[i].id != e.id
    {
      assert Recorded(s, i);
    }
    forall id | id in t.calls && t.calls[id].Returned?
      ensures Logged(t, id)
    {
      if id != e.id {
        LoggedKept(s, t, id);
      }
    }
  }

  lemma ResetLog(s: State, t: State, key: Key)
    requires LogInv(s) && t.log == s.log + [WasReset(key)] && t.calls == s.calls
    ensures LogInv(t)
  {
    assert t.log[|s.log|] == WasReset(key);
    forall i | 0 <= i < |s.log|
      ensures Recorded(t, i) && t.log[i] == s.log[i]
    {
      RecordedKept(s, t, i);
    }
    forall id | id in t.calls && t.calls[id].Returned?
      ensures Logged(t, id)
    {
      LoggedKept(s, t, id);
    }
  }

  predicate Swaps(s: State, step: Step) {
    && step.CompareAndSwap? && step.id in s.calls && s.calls[step.id].Swapping?
    && s.calls[step.id].key in s.counters && s.counters[s.calls[step.id].key] == s.calls[step.id].val
  }

  lemma SwapInv(s: State, step: Step)
    requires Inv(s) && Swaps(s, step)
    ensures Inv(Next(s, step))
  {
    var call := s.calls[step.id];
    var e := Increased(step.id, call.key, call.val + 1);
    CountersStep(s, Next(s, step), e);
    SwapLog(s, Next(s, step), e);
  }

  lemma QuietInv(s: State, step: Step)
    requires Inv(s) && !Swaps(s, step) && !step.Reset?
    ensures Inv(Next(s, step))
  {
    var t := Next(s, step);
    assert t.log == s.log && Extends(s, t);
    forall i | 0 <= i < |s.log|
      ensures Recorded(t, i)
    {
      RecordedKept(s, t, i);
    }
    forall id | id in t.calls && t.calls[id].Returned?
      ensures Logged(t, id)
    {
      LoggedKept(s, t, id);
    }
  }

  lemma NextInv(s: State, step: Step)
    requires Inv(s)
    ensures Inv(Next(s, step))
  {
    if Swaps(s, step) {
      SwapInv(s, step);
    } else if step.Reset? {
      CountersStep(s, Next(s, step), WasReset(step.key));
      ResetLog(s, Next(s, step), step.key);
    } else {
      QuietInv(s, step);
    }
  }

  lemma {:induction false} ExecInv(s: State, steps: seq<Step>)
    requires Inv(s)
    ensures Inv(Exec(s, steps))
    decreases |steps|
  {
    if steps == [] {
    } else {
      NextInv(s, steps[0]);
      ExecInv(Next(s, steps[0]), steps[1..]);
    }
  }

  /**
   * An increment returns one more than the increments made since the last
   * reset before its swap, even if the value it read was stored before that reset.
   */
  lemma IncreaseCountsSinceReset(steps: seq<Step>, id: Id)
    ensures
      var s := Exec(INIT, steps);
      id in s.calls && s.calls[id].Returned? ==>
        exists i :: 0 <= i < |s.log|
          && s.log[i] == Increased(id, s.calls[id].key, s.calls[id].newValue)
          && s.calls[id].newValue == 1 + SinceReset(s.log[..i], s.calls[id].key)
          && forall j :: 0 <= j < |s.log| && s.log[j].Increased? && s.log[j].id == id ==> j == i
  {
    ExecInv(INIT, steps);
    var s := Exec(INIT, steps);
    if id in s.calls && s.calls[id].Returned? {
      assert Logged(s, id);
      var i :| 0 <= i < |s.log| && s.log[i] == Increased(id, s.calls[id].key, s.calls[id].newValue);
      assert Recorded(s, i);
    }
  }

  /** Nobody waits for anybody: a call left alone for two steps returns, whatever was swapped or reset before. */
  lemma UndisturbedCallReturns(steps: seq<Step>, id: Id)
    requires var s := Exec(INIT, steps); id in s.calls && s.calls[id].Loading?
    ensures
      var s := Exec(INIT, steps);
      var t := Next(Next(s, LoadOrStore(id)), CompareAndSwap(id));
      t.calls[id] == Returned(s.calls[id].key, 1 + SinceReset(s.log, s.calls[id].key))
  {
    ExecInv(INIT, steps);
    assert CountersInv(Exec(INIT, steps));
  }

  /** A run goes on with one step at a time, and a step that is not enabled is skipped. */
  lemma {:induction false} ExecOneMore(s: State, steps: seq<Step>, step: Step)
    ensures Exec(s, []) == s && Exec(s, steps + [step]) == Next(Exec(s, steps), step)
    decreases |steps|
  {
    if steps == [] {
      assert (steps + [step])[1..] == [];
    } else {
      assert (steps + [step])[1..] == steps[1..] + [step];
      ExecOneMore(Next(s, steps[0]), steps[1..], step);
    }
  }

  /** An increment called and left alone returns one more than the counter holds, 1 for none, and leaves that. */
  lemma UndisturbedIncrement(s: State, id: Id, key: Key)
    requires id !in s.calls
    ensures
      var t := Next(Next(Next(s, Start(id, key)), LoadOrStore(id)), CompareAndSwap(id));
      var after := if key in s.counters then s.counters[key] + 1 else 1;
      && id in t.calls && t.calls[id] == Returned(key, after)
      && t.counters == s.counters[key := after]
  {
  }

  /** After a reset, in any state, the next increment of that key returns 1, and the other counters are as they were. */
  lemma ResetStartsAgain(s: State, key: Key, id: Id)
    requires id !in s.calls
    ensures
      var r := Next(s, Reset(key));
      var t := Next(Next(Next(r, Start(id, key)), LoadOrStore(id)), CompareAndSwap(id));
      && r.calls == s.calls
      && (forall other :: other != key ==>
            && (other in r.counters <==> other in s.counters)
            && (other in s.counters ==> r.counters[other] == s.counters[other]))
      && id in t.calls && t.calls[id] == Returned(key, 1)
  {
    UndisturbedIncrement(Next(s, Reset(key)), id, key);
  }

  /** The increments since the last reset, event by event. */
  lemma SinceResetOf(log: seq<Event>, id: Id, key: Key, n: int, other: Key)
    ensures SinceReset([], key) == 0
    ensures SinceReset(log + [WasReset(key)], key) == 0
    ensures SinceReset(log + [Increased(id, key, n)], key) == SinceReset(log, key) + 1
    ensures other != key ==>
              && SinceReset(log + [WasReset(other)], key) == SinceReset(log, key)
              && SinceReset(log + [Increased(id, other, n)], key) == SinceReset(log, key)
  {
    assert (log + [WasReset(key)])[..|log|] == log && (log + [WasReset(other)])[..|log|] == log;
    assert (log + [Increased(id, key, n)])[..|log|] == log && (log + [Increased(id, other, n)])[..|log|] == log;
  }
}
