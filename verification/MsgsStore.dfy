/** Chat messages by session, as a value. */
module Messages {
  import opened Wrappers

  /** Some message types name their session; the others are kept under the empty name. */
  datatype Msg = Msg(session: Option<string>, content: string)

  type Contents = map<string, seq<Msg>>

  function SessionOf(m: Msg): string {
    m.session.GetOr("")
  }

  function MessagesOf(c: Contents, session: string): seq<Msg> {
    if session in c then c[session] else []
  }

  function Appended(c: Contents, m: Msg): Contents {
    c[SessionOf(m) := MessagesOf(c, SessionOf(m)) + [m]]
  }

  function AppendedAll(ms: seq<Msg>): Contents {
    if ms == [] then map[] else Appended(AppendedAll(ms[..|ms| - 1]), ms[|ms| - 1])
  }

  /** The messages of one session, in order. */
  function InSession(ms: seq<Msg>, session: string): seq<Msg> {
    if ms == [] then []
    else
      var m := ms[|ms| - 1];
      InSession(ms[..|ms| - 1], session) + if BelongsTo(m, session) then [m] else []
  }

  /** A message that names no session belongs to the one with the empty name. */
  predicate BelongsTo(m: Msg, session: string) {
    m.session == Some(session) || (m.session.None? && session == "")
  }

  lemma {:induction false} AppendedAllBySession(ms: seq<Msg>, session: string)
    ensures MessagesOf(AppendedAll(ms), session) == InSession(ms, session)
  {
    if ms == [] {
    } else {
      AppendedAllBySession(ms[..|ms| - 1], session);
    }
  }

  /**
   * A message is found under the session it names, or under the empty name if
   * it names none, after those that were there, and nowhere else.
   */
  lemma OneMoreMessage(ms: seq<Msg>, m: Msg, session: string)
    ensures MessagesOf(AppendedAll([]), session) == []
    ensures
      MessagesOf(AppendedAll(ms + [m]), session)
      == MessagesOf(AppendedAll(ms), session)
         + if m.session == Some(session) || (m.session.None? && session == "") then [m] else []
  {
    AppendedAllBySession(ms + [m], session);
    AppendedAllBySession(ms, session);
    assert (ms + [m])[..|ms|] == ms;
  }
}

/**
 * The collection a store version holds
 * (webrtc-agents/pkg/handlers/chatbot_dc_handler.go), with the slices of the
 * source: a backing array and a length, so an append may write in place.
 */
module MsgsCollection {
  import opened Messages

  datatype Slice = Slice(backing: array<Msg>, len: nat)

  /** A new array of the given capacity that begins with a copy of `src`. */
  method CopyOf(src: seq<Msg>, capacity: nat) returns (dst: array<Msg>)
    requires |src| <= capacity
    ensures fresh(dst) && dst.Length == capacity && dst[..|src|] == src
  {
    dst := new Msg[capacity];
    for i := 0 to |src|
      invariant dst[..i] == src[..i]
    {
      dst[i] := src[i];
    }
  }

  /** The slice moved to an array with room to spare, and the message after it. */
  method Grow(src: seq<Msg>, m: Msg) returns (larger: array<Msg>)
    ensures fresh(larger) && larger.Length > |src| && larger[..|src| + 1] == src + [m]
  {
    var capacity: nat :| capacity > |src|;
    larger := CopyOf(src, capacity);
    larger[|src|] := m;
  }

  class IndexedMsgsCollection {
    var store: map<string, Slice>
    ghost var contents: Contents
    ghost var backings: set<array<Msg>>

    ghost predicate Valid()
      reads this, backings
    {
      && contents.Keys == store.Keys
      && (forall k :: k in store ==>
            && store[k].backing in backings
            && store[k].len <= store[k].backing.Length
            && store[k].backing[..store[k].len] == contents[k])
      && (forall j, k :: j in store && k in store && j != k ==> store[j].backing != store[k].backing)
    }

    constructor ()
      ensures Valid() && contents == map[] && backings == {}
    {
      store, contents, backings := map[], map[], {};
    }

    /** The loop of DeepClone: a new map with a copy of every list. */
    method CloneLists() returns (newMap: map<string, Slice>, ghost arrays: set<array<Msg>>)
      requires Valid()
      ensures newMap.Keys == store.Keys && fresh(arrays)
      ensures forall k :: k in newMap ==>
                && newMap[k].backing in arrays
                && newMap[k].len == newMap[k].backing.Length
                && newMap[k].backing[..newMap[k].len] == contents[k]
      ensures forall j, k :: j in newMap && k in newMap && j != k ==> newMap[j].backing != newMap[k].backing
    {
      newMap, arrays := map[], {};
      var rest := store.Keys;
      while rest != {}
        invariant rest <= store.Keys && newMap.Keys == store.Keys - rest
        invariant fresh(arrays)
        invariant forall k :: k in newMap ==>
                    && newMap[k].backing in arrays
                    && newMap[k].len == newMap[k].backing.Length
                    && newMap[k].backing[..newMap[k].len] == contents[k]
        invariant forall j, k :: j in newMap && k in newMap && j != k ==> newMap[j].backing != newMap[k].backing
      {
        var sessionId :| sessionId in rest;
        rest := rest - {sessionId};
        var li := store[sessionId];
        var newList := CopyOf(li.backing[..li.len], li.len);
        newMap := newMap[sessionId := Slice(newList, li.len)];
        arrays := arrays + {newList};
      }
    }

    method DeepClone() returns (copy: IndexedMsgsCollection)
      requires Valid()
      ensures fresh(copy) && copy.Valid() && fresh(copy.backings)
      ensures copy.contents == contents
    {
      var newMap, arrays := CloneLists();
      copy := new IndexedMsgsCollection();
      copy.store, copy.contents, copy.backings := newMap, contents, arrays;
    }

    /** append: in place when the backing array has room, in a larger array otherwise. */
    method Append(m: Msg)
      requires Valid()
      modifies this, backings
      ensures Valid() && fresh(backings - old(backings))
      ensures contents == Appended(old(contents), m)
    {
      var sessionId := SessionOf(m);
      if sessionId in store && store[sessionId].len < store[sessionId].backing.Length {
        var li := store[sessionId];
        li.backing[li.len] := m;
        store := store[sessionId := Slice(li.backing, li.len + 1)];
        assert li.backing[..li.len + 1] == contents[sessionId] + [m];
      } else {
        var li := if sessionId in store then store[sessionId].backing[..store[sessionId].len] else [];
        var larger := Grow(li, m);
        store := store[sessionId := Slice(larger, |li| + 1)];
        backings := backings + {larger};
      }
      contents := Appended(contents, m);
    }

    method GetMessagesBySessionId(sessionId: string) returns (ms: seq<Msg>)
      requires Valid()
      ensures ms == MessagesOf(contents, sessionId)
    {
      ms := if sessionId in store then store[sessionId].backing[..store[sessionId].len] else [];
    }
  }

  /** What an Append of the store prepares: the next version, leaving the loaded one as it was. */
  method BuildUpdated(loaded: IndexedMsgsCollection?, m: Msg) returns (updated: IndexedMsgsCollection)
    requires loaded != null ==> loaded.Valid()
    ensures fresh(updated) && updated.Valid() && fresh(updated.backings)
    ensures updated.contents == Appended(if loaded == null then map[] else loaded.contents, m)
    ensures loaded != null ==> unchanged(loaded) && unchanged(loaded.backings)
  {
    if loaded == null {
      updated := new IndexedMsgsCollection();
    } else {
      updated := loaded.DeepClone();
    }
    updated.Append(m);
  }
}

/**
 * The store that publishes versions by compare-and-swap
 * (webrtc-agents/pkg/msgs_store/msgs_store.go), under every interleaving of
 * Append calls.  A version is identified by the address of its MsgsStore: an
 * address is fresh when allocated, and stays so while anyone holds it.
 */
module MsgsStore {
  import opened Wrappers
  import opened Messages

  const MAX_RETRIES := 10000

  type CallId = nat
  type VersionId = nat

  /** `since` and `seen` are auxiliary: how many versions had been published at the start and at the load. */
  datatype Call =
    | Looping(msg: Msg, retries: nat, since: nat)
    | Loaded(msg: Msg, retries: nat, since: nat, seen: nat, loaded: Option<VersionId>)
    | Built(msg: Msg, retries: nat, since: nat, seen: nat, loaded: Option<VersionId>, updated: VersionId)
    | Succeeded(msg: Msg)
    | Failed(msg: Msg, since: nat, until: nat)

  datatype Publication = Publication(version: VersionId, call: CallId, msg: Msg)

  datatype State = State(
    versions: map<VersionId, Contents>,
    nextVersion: VersionId,
    ptr: Option<VersionId>,
    calls: map<CallId, Call>,
    published: seq<Publication>)

  const INIT := State(map[], 0, None, map[], [])

  datatype Step = Start(id: CallId, msg: Msg) | Load(id: CallId) | Build(id: CallId) | CompareAndSwap(id: CallId)

  predicate Enabled(s: State, step: Step) {
    match step
    case Start(id, _) => id !in s.calls
    case Load(id) => id in s.calls && s.calls[id].Looping?
    case Build(id) =>
      && id in s.calls && s.calls[id].Loaded?
      && (s.calls[id].loaded.Some? ==> s.calls[id].loaded.value in s.versions)
    case CompareAndSwap(id) => id in s.calls && s.calls[id].Built?
  }

  function ContentsAt(s: State, v: Option<VersionId>): Contents
    requires v.Some? ==> v.value in s.versions
  {
    if v.None? then map[] else s.versions[v.value]
  }

  function Do(s: State, step: Step): State
    requires Enabled(s, step)
  {
    match step
    case Start(id, msg) => s.(calls := s.calls[id := Looping(msg, MAX_RETRIES, |s.published|)])
    case Load(id) =>
      var Looping(msg, retries, since) := s.calls[id];
      s.(calls := s.calls[id := Loaded(msg, retries, since, |s.published|, s.ptr)])
    case Build(id) =>
      var Loaded(msg, retries, since, seen, loaded) := s.calls[id];
      s.(versions := s.versions[s.nextVersion := Appended(ContentsAt(s, loaded), msg)],
        nextVersion := s.nextVersion + 1,
        calls := s.calls[id := Built(msg, retries, since, seen, loaded, s.nextVersion)])
    case CompareAndSwap(id) =>
      var Built(msg, retries, since, seen, loaded, updated) := s.calls[id];
      if s.ptr == loaded then
        s.(ptr := Some(updated), calls := s.calls[id := Succeeded(msg)],
          published := s.published + [Publication(updated, id, msg)])
      else if retries <= 1 then
        s.(calls := s.calls[id := Failed(msg, since, |s.published|)])
      else
        s.(calls := s.calls[id := Looping(msg, retries - 1, since)])
  }

  function Next(s: State, step: Step): State {
    if Enabled(s, step) then Do(s, step) else s
  }

  function Exec(s: State, steps: seq<Step>): State
    decreases |steps|
  {
    if steps == [] then s else Exec(Next(s, steps[0]), steps[1..])
  }

  // ---------------------------------------------------------------- invariant

  /** The pointer after the first n publications. */
  function PtrAt(published: seq<Publication>, n: nat): Option<VersionId>
    requires n <= |published|
  {
    if n == 0 then None else Some(published[n - 1].version)
  }

  /** Publication i extends the version published before it by its message. */
  ghost predicate Linked(s: State, i: nat)
    requires i < |s.published|
  {
    var before, p := PtrAt(s.published, i), s.published[i];
    && p.version in s.versions
    && (before.Some? ==> before.value in s.versions)
    && s.versions[p.version] == Appended(ContentsAt(s, before), p.msg)
  }

  ghost predicate ChainInv(s: State) {
    && (forall v :: v in s.versions ==> v < s.nextVersion)
    && (forall i, j :: 0 <= i < j < |s.published| ==> s.published[i].version != s.published[j].version)
    && s.ptr == PtrAt(s.published, |s.published|)
    && (forall i :: 0 <= i < |s.published| ==> Linked(s, i))
  }

  /** What a call under way has loaded and prepared. */
  ghost predicate CallInv(s: State, id: CallId)
    requires id in s.calls
  {
    match s.calls[id]
    case Looping(_, retries, since) =>
      0 < retries <= MAX_RETRIES && since + (MAX_RETRIES - retries) <= |s.published|
    case Loaded(_, retries, since, seen, loaded) =>
      && 0 < retries <= MAX_RETRIES && since + (MAX_RETRIES - retries) <= seen <= |s.published|
      && loaded == PtrAt(s.published, seen)
    case Built(msg, retries, since, seen, loaded, updated) =>
      && 0 < retries <= MAX_RETRIES && since + (MAX_RETRIES - retries) <= seen <= |s.published|
      && loaded == PtrAt(s.published, seen)
      && updated in s.versions
      && (forall i :: 0 <= i < |s.published| ==> s.published[i].version != updated)
      && (loaded.Some? ==> loaded.value in s.versions)
      && s.versions[updated] == Appended(ContentsAt(s, loaded), msg)
    case Succeeded(_) => true
    case Failed(_, since, until) => since + MAX_RETRIES <= until <= |s.published|
  }

  ghost predicate CallsInv(s: State) {
    && (forall id :: id in s.calls ==> CallInv(s, id))
    && (forall a, b :: a in s.calls && b in s.calls && a != b && s.calls[a].Built? && s.calls[b].Built? ==>
          s.calls[a].updated != s.calls[b].updated)
  }

  ghost predicate OnceInv(s: State) {
    && (forall i, j :: 0 <= i < j < |s.published| ==> s.published[i].call != s.published[j].call)
    && (forall i :: 0 <= i < |s.published| ==>
          s.published[i].call in s.calls && s.calls[s.published[i].call] == Succeeded(s.published[i].msg))
    && (forall id :: id in s.calls && s.calls[id].Succeeded? ==>
          exists i :: 0 <= i < |s.published| && s.published[i].call == id)
  }

  ghost predicate Inv(s: State) {
    ChainInv(s) && CallsInv(s) && OnceInv(s)
  }

  predicate Publishes(s: State, step: Step)
    requires Enabled(s, step)
  {
    step.CompareAndSwap? && s.ptr == s.calls[step.id].loaded
  }

  /** An unequal pointer means that another call has published since the load. */
  lemma FailedSwapMeansProgress(s: State, id: CallId)
    requires Inv(s) && Enabled(s, CompareAndSwap(id))
    ensures s.ptr == s.calls[id].loaded <==> s.calls[id].seen == |s.published|
  {
    assert CallInv(s, id);
    var seen := s.calls[id].seen;
    if 0 < seen < |s.published| {
      assert s.published[seen - 1].version != s.published[|s.published| - 1].version;
    }
  }

  /** Later states keep the versions and the publications of earlier ones. */
  ghost predicate Extends(s: State, t: State) {
    && s.published <= t.published
    && forall v :: v in s.versions ==> v in t.versions && t.versions[v] == s.versions[v]
  }

  lemma LinkKept(s: State, t: State, i: nat)
    requires i < |s.published| && Linked(s, i) && Extends(s, t)
    ensures Linked(t, i)
  {
    assert PtrAt(t.published, i) == PtrAt(s.published, i);
  }

  lemma CallKept(s: State, t: State, id: CallId)
    requires id in s.calls && CallInv(s, id) && Extends(s, t)
    requires id in t.calls && t.calls[id] == s.calls[id]
    requires s.calls[id].Built? ==>
               forall i :: |s.published| <= i < |t.published| ==> t.published[i].version != s.calls[id].updated
    ensures CallInv(t, id)
  {
    if s.calls[id].Loaded? || s.calls[id].Built? {
      assert PtrAt(t.published, s.calls[id].seen) == PtrAt(s.published, s.calls[id].seen);
    }
  }

  /** Steps that neither allocate nor publish. */
  lemma PrivateCalls(s: State, step: Step)
    requires CallsInv(s) && Enabled(s, step) && !step.Build? && !Publishes(s, step)
    requires CallInv(Do(s, step), step.id)
    ensures CallsInv(Do(s, step))
  {
    var t := Do(s, step);
    assert t.versions == s.versions && t.published == s.published;
    forall id | id in t.calls && id != step.id
      ensures CallInv(t, id)
    {
      CallKept(s, t, id);
    }
    assert forall id :: id in t.calls && t.calls[id].Built? ==> id in s.calls && t.calls[id] == s.calls[id];
  }

  lemma MovedCall(s: State, step: Step)
    requires Inv(s) && Enabled(s, step) && !step.Build? && !Publishes(s, step)
    ensures CallInv(Do(s, step), step.id)
  {
    if !step.Start? {
      assert CallInv(s, step.id);
    }
    if step.CompareAndSwap? {
      FailedSwapMeansProgress(s, step.id);
    }
  }

  lemma PrivateOnce(s: State, step: Step)
    requires OnceInv(s) && Enabled(s, step) && !Publishes(s, step)
    ensures OnceInv(Do(s, step))
  {
    var t := Do(s, step);
    assert t.published == s.published;
    assert forall id :: id in s.calls && s.calls[id].Succeeded? ==> t.calls[id] == s.calls[id];
    assert forall id :: id in t.calls && t.calls[id].Succeeded? ==> id in s.calls && s.calls[id].Succeeded?;
  }

  lemma BuildChain(s: State, id: CallId)
    requires ChainInv(s) && Enabled(s, Build(id))
    ensures ChainInv(Do(s, Build(id))) && Extends(s, Do(s, Build(id)))
  {
    var t := Do(s, Build(id));
    forall i | 0 <= i < |t.published|
      ensures Linked(t, i)
    {
      LinkKept(s, t, i);
    }
  }

  lemma BuildCalls(s: State, id: CallId)
    requires ChainInv(s) && CallsInv(s) && Enabled(s, Build(id)) && Extends(s, Do(s, Build(id)))
    ensures CallsInv(Do(s, Build(id)))
  {
    var t := Do(s, Build(id));
    forall other | other in t.calls && other != id
      ensures CallInv(t, other)
    {
      CallKept(s, t, other);
    }
    assert CallInv(s, id);
    forall i | 0 <= i < |s.published|
      ensures s.published[i].version != s.nextVersion
    {
      assert Linked(s, i);
    }
    forall other | other in s.calls && s.calls[other].Built?
      ensures s.calls[other].updated != s.nextVersion
    {
      assert CallInv(s, other);
    }
  }

  lemma PublishChain(s: State, id: CallId)
    requires ChainInv(s) && Enabled(s, CompareAndSwap(id)) && Publishes(s, CompareAndSwap(id)) && CallInv(s, id)
    ensures ChainInv(Do(s, CompareAndSwap(id))) && Extends(s, Do(s, CompareAndSwap(id)))
  {
    var t := Do(s, CompareAndSwap(id));
    var n := |s.published|;
    assert PtrAt(t.published, n) == PtrAt(s.published, n) == s.ptr;
    forall i | 0 <= i < |t.published|
      ensures Linked(t, i)
    {
      if i < n {
        LinkKept(s, t, i);
      }
    }
  }

  lemma PublishCalls(s: State, id: CallId)
    requires CallsInv(s) && Enabled(s, CompareAndSwap(id)) && Publishes(s, CompareAndSwap(id))
    requires Extends(s, Do(s, CompareAndSwap(id)))
    ensures CallsInv(Do(s, CompareAndSwap(id)))
  {
    var t := Do(s, CompareAndSwap(id));
    forall other | other in t.calls && other != id
      ensures CallInv(t, other)
    {
      CallKept(s, t, other);
    }
  }

  lemma PublishOnce(s: State, id: CallId)
    requires OnceInv(s) && Enabled(s, CompareAndSwap(id)) && Publishes(s, CompareAndSwap(id))
    ensures OnceInv(Do(s, CompareAndSwap(id)))
  {
    var t := Do(s, CompareAndSwap(id));
    forall other | other in t.calls && t.calls[other].Succeeded?
      ensures exists i :: 0 <= i < |t.published| && t.published[i].call == other
    {
      if other == id {
        assert t.published[|s.published|].call == id;
      } else {
        var i :| 0 <= i < |s.published| && s.published[i].call == other;
        assert t.published[i].call == other;
      }
    }
  }

  lemma NextInv(s: State, step: Step)
    requires Inv(s)
    ensures Inv(Next(s, step)) && Extends(s, Next(s, step))
  {
    if Enabled(s, step) {
      if step.Build? {
        BuildChain(s, step.id);
        BuildCalls(s, step.id);
        PrivateOnce(s, step);
      } else if Publishes(s, step) {
        assert CallInv(s, step.id);
        PublishChain(s, step.id);
        PublishCalls(s, step.id);
        PublishOnce(s, step.id);
      } else {
        MovedCall(s, step);
        PrivateCalls(s, step);
        PrivateOnce(s, step);
        PrivateChain(s, step);
      }
    }
  }

  lemma PrivateChain(s: State, step: Step)
    requires ChainInv(s) && Enabled(s, step) && !step.Build? && !Publishes(s, step)
    ensures ChainInv(Do(s, step))
  {
    var t := Do(s, step);
    assert t.versions == s.versions && t.published == s.published && t.ptr == s.ptr;
    forall i | 0 <= i < |t.published|
      ensures Linked(t, i)
    {
      LinkKept(s, t, i);
    }
  }

  lemma {:induction false} ExecInv(s: State, steps: seq<Step>)
    requires Inv(s)
    ensures Inv(Exec(s, steps))
    decreases |steps|
  {
    if steps == [] {
    } else {
      NextInv(s, steps[0]);
      ExecInv(Next(s, steps[0]), steps[1..]);
    }
  }

  // ---------------------------------------------------------------- results about every run

  function PublishedMsgs(published: seq<Publication>): seq<Msg> {
    seq(|published|, i requires 0 <= i < |published| => published[i].msg)
  }

  lemma {:induction false} ChainIsFold(s: State, n: nat)
    requires ChainInv(s) && n <= |s.published|
    ensures PtrAt(s.published, n).Some? ==> PtrAt(s.published, n).value in s.versions
    ensures ContentsAt(s, PtrAt(s.published, n)) == AppendedAll(PublishedMsgs(s.published)[..n])
  {
    if n == 0 {
    } else {
      ChainIsFold(s, n - 1);
      assert Linked(s, n - 1);
      assert PublishedMsgs(s.published)[..n][..n - 1] == PublishedMsgs(s.published)[..n - 1];
    }
  }

  /**
   * The published version is what the published messages give when appended
   * one by one, in the order of the swaps; each session holds its own.
   */
  lemma StoreIsLinearizable(steps: seq<Step>, session: string)
    ensures
      var s := Exec(INIT, steps);
      && (s.ptr.Some? ==> s.ptr.value in s.versions)
      && ContentsAt(s, s.ptr) == AppendedAll(PublishedMsgs(s.published))
      && MessagesOf(ContentsAt(s, s.ptr), session) == InSession(PublishedMsgs(s.published), session)
  {
    ExecInv(INIT, steps);
    var s := Exec(INIT, steps);
    ChainIsFold(s, |s.published|);
    assert PublishedMsgs(s.published)[..|s.published|] == PublishedMsgs(s.published);
    AppendedAllBySession(PublishedMsgs(s.published), session);
  }

  /** An Append that returned nil published its message exactly once; any other has published nothing. */
  lemma PublishedExactlyOnce(steps: seq<Step>, id: CallId)
    requires id in Exec(INIT, steps).calls
    ensures
      var s := Exec(INIT, steps);
      && (s.calls[id].Succeeded? <==> exists i :: 0 <= i < |s.published| && s.published[i].call == id)
      && (forall i, j :: 0 <= i < j < |s.published| ==> s.published[i].call != s.published[j].call)
      && (forall i :: 0 <= i < |s.published| && s.published[i].call == id ==> s.published[i].msg == s.calls[id].msg)
  {
    ExecInv(INIT, steps);
  }

  /** Lock freedom: an Append that gives up has seen at least 10000 others succeed during the call. */
  lemma GivingUpMeansOthersSucceeded(steps: seq<Step>, id: CallId)
    requires id in Exec(INIT, steps).calls && Exec(INIT, steps).calls[id].Failed?
    ensures
      var s := Exec(INIT, steps);
      var Failed(_, since, until) := s.calls[id];
      && since + 10000 <= until <= |s.published|
      && (forall i :: 0 <= i < |s.published| ==> s.published[i].call != id)
  {
    ExecInv(INIT, steps);
    assert CallInv(Exec(INIT, steps), id);
  }

  /** From any state an Append left alone for one round publishes its message on top of what is there. */
  lemma UndisturbedAppendPublishes(steps: seq<Step>, id: CallId)
    requires var s := Exec(INIT, steps); id in s.calls && s.calls[id].Looping?
    ensures
      var s := Exec(INIT, steps);
      var t := Next(Next(Next(s, Load(id)), Build(id)), CompareAndSwap(id));
      && t.calls[id] == Succeeded(s.calls[id].msg)
      && (s.ptr.Some? ==> s.ptr.value in s.versions) && t.ptr.Some? && t.ptr.value in t.versions
      && ContentsAt(t, t.ptr) == Appended(ContentsAt(s, s.ptr), s.calls[id].msg)
  {
    ExecInv(INIT, steps);
    var s := Exec(INIT, steps);
    if s.published != [] {
      assert Linked(s, |s.published| - 1);
    }
  }

  /**
   * An Append called and left alone publishes its message: a reader of its
   * session then finds it last, and the other sessions are as they were.
   */
  lemma UndisturbedAppend(steps: seq<Step>, id: CallId, m: Msg, session: string)
    requires id !in Exec(INIT, steps).calls
    ensures
      var s := Exec(INIT, steps);
      var t := Next(Next(Next(Next(s, Start(id, m)), Load(id)), Build(id)), CompareAndSwap(id));
      && id in t.calls && t.calls[id] == Succeeded(m)
      && (s.ptr.Some? ==> s.ptr.value in s.versions) && t.ptr.Some? && t.ptr.value in t.versions
      && MessagesOf(ContentsAt(t, t.ptr), session)
         == MessagesOf(ContentsAt(s, s.ptr), session)
            + if m.session == Some(session) || (m.session.None? && session == "") then [m] else []
  {
    ExecOneMore(INIT, steps, Start(id, m));
    UndisturbedAppendPublishes(steps + [Start(id, m)], id);
  }

  /** A run goes on with one step at a time, and a step that is not enabled is skipped. */
  lemma {:induction false} ExecOneMore(s: State, steps: seq<Step>, step: Step)
    ensures Exec(s, []) == s && Exec(s, steps + [step]) == Next(Exec(s, steps), step)
    decreases |steps|
  {
    if steps == [] {
      assert (steps + [step])[1..] == [];
    } else {
      assert (steps + [step])[1..] == steps[1..] + [step];
      ExecOneMore(Next(s, steps[0]), steps[1..], step);
    }
  }

  /** A call has 10000 swaps to fail: each failure but the last leads to another round. */
  lemma RetriesRunOut(s: State, id: CallId, m: Msg)
    ensures id !in s.calls ==>
              var t := Next(s, Start(id, m)); id in t.calls && t.calls[id] == Looping(m, 10000, |s.published|)
    ensures id in s.calls && s.calls[id].Built? && s.ptr != s.calls[id].loaded && s.calls[id].retries > 0 ==>
              var c, t := s.calls[id], Next(s, CompareAndSwap(id));
              && t.published == s.published && t.ptr == s.ptr && id in t.calls
              && t.calls[id] == if c.retries == 1 then Failed(c.msg, c.since, |s.published|)
                                else Looping(c.msg, c.retries - 1, c.since)
  {
  }

  /** A version never changes once it exists, whoever has loaded it. */
  lemma VersionsAreImmutable(before: seq<Step>, after: seq<Step>, v: VersionId)
    requires v in Exec(INIT, before).versions
    ensures
      var s := Exec(INIT, before);
      var t := Exec(s, after);
      v in t.versions && t.versions[v] == s.versions[v]
  {
    ExecInv(INIT, before);
    VersionKept(Exec(INIT, before), after, v);
  }

  lemma {:induction false} VersionKept(s: State, steps: seq<Step>, v: VersionId)
    requires Inv(s) && v in s.versions
    ensures v in Exec(s, steps).versions && Exec(s, steps).versions[v] == s.versions[v]
    decreases |steps|
  {
    if steps == [] {
    } else {
      NextInv(s, steps[0]);
      VersionKept(Next(s, steps[0]), steps[1..], v);
    }
  }
}
