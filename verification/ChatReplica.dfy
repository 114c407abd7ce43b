/**
 * The message list that two peers keep of one conversation
 * (webrtc-web/app/page.tsx): each applies its own operations at once and the
 * other's on arrival, over an ordered reliable channel in each direction.
 */
module ChatReplica {
  import opened Wrappers

  datatype Peer = Alice | Bob

  function Other(p: Peer): Peer {
    if p.Alice? then Bob else Alice
  }

  /** A chat message as it is sent; the one in an amend request is its parsed JSON. */
  datatype Msg = Msg(
    messageId: string,
    from: Peer,
    body: string,
    acked: bool,
    amend: Option<Amend>,
    delete: Option<string>,
    ack: Option<string>)

  datatype Amend = Amend(messageId: string, newMessage: Msg)

  // ---------------------------------------------------------------- the list

  function FindIndex(list: seq<Msg>, id: string): (i: int)
    ensures -1 <= i < |list|
    ensures i >= 0 ==> list[i].messageId == id
    ensures forall j :: 0 <= j < (if i < 0 then |list| else i) ==> list[j].messageId != id
  {
    if list == [] then -1
    else if list[0].messageId == id then 0
    else
      var i := FindIndex(list[1..], id);
      if i < 0 then -1 else i + 1
  }

  function Without(list: seq<Msg>, id: string): seq<Msg> {
    if list == [] then []
    else (if list[0].messageId != id then [list[0]] else []) + Without(list[1..], id)
  }

  predicate IsAmend(m: Msg) {
    m.amend.Some? && m.amend.value.messageId != ""
  }

  predicate IsDelete(m: Msg) {
    !IsAmend(m) && m.delete.Some? && m.delete.value != ""
  }

  predicate IsAddition(m: Msg) {
    !IsAmend(m) && !IsDelete(m)
  }

  /** updateConnTrackStatusByMsgObject */
  function Update(list: seq<Msg>, m: Msg): seq<Msg> {
    if IsAmend(m) then
      var idx := FindIndex(list, m.amend.value.messageId);
      if idx >= 0 then list[idx := m.amend.value.newMessage] else list
    else if IsDelete(m) then Without(list, m.delete.value)
    else if FindIndex(list, m.messageId) < 0 then list + [m]
    else list
  }

  /** The acknowledgement branch of the message handler. */
  function MarkAcked(list: seq<Msg>, id: string): seq<Msg> {
    seq(|list|, i requires 0 <= i < |list| =>
      if list[i].messageId == id then list[i].(acked := true) else list[i])
  }

  ghost predicate DistinctIds(list: seq<Msg>) {
    forall i, j :: 0 <= i < j < |list| ==> list[i].messageId != list[j].messageId
  }

  // ---------------------------------------------------------------- its meaning

  type View = map<string, Msg>

  function Erase(m: Msg): Msg {
    m.(acked := false)
  }

  /** The messages by id, with neither their order nor their acked flags. */
  function ViewOf(list: seq<Msg>): View {
    if list == [] then map[] else ViewOf(list[1..])[list[0].messageId := Erase(list[0])]
  }

  function UpdateView(v: View, m: Msg): View {
    if IsAmend(m) then
      var id := m.amend.value.messageId;
      if id in v then v[id := Erase(m.amend.value.newMessage)] else v
    else if IsDelete(m) then v - {m.delete.value}
    else if m.messageId in v then v
    else v[m.messageId := Erase(m)]
  }

  /** An amended message keeps the id it is amended under. */
  predicate KeepsId(m: Msg) {
    IsAmend(m) ==> m.amend.value.newMessage.messageId == m.amend.value.messageId
  }

  lemma {:induction false} ViewLookup(list: seq<Msg>, id: string)
    ensures id in ViewOf(list) <==> FindIndex(list, id) >= 0
    ensures id in ViewOf(list) ==> ViewOf(list)[id] == Erase(list[FindIndex(list, id)])
  {
    if list == [] {
    } else {
      ViewLookup(list[1..], id);
    }
  }

  lemma {:induction false} ViewOfReplaced(list: seq<Msg>, id: string, m: Msg)
    requires FindIndex(list, id) >= 0 && m.messageId == id
    ensures ViewOf(list[FindIndex(list, id) := m]) == ViewOf(list)[id := Erase(m)]
  {
    var after := list[FindIndex(list, id) := m];
    if list[0].messageId == id {
      assert after[1..] == list[1..];
    } else {
      ViewOfReplaced(list[1..], id, m);
      assert after[1..] == list[1..][FindIndex(list[1..], id) := m];
    }
  }

  lemma {:induction false} ViewWithout(list: seq<Msg>, id: string)
    ensures ViewOf(Without(list, id)) == ViewOf(list) - {id}
  {
    if list == [] {
    } else {
      ViewWithout(list[1..], id);
      var rest := Without(list[1..], id);
      if list[0].messageId != id {
        assert ([list[0]] + rest)[1..] == rest;
      } else {
        assert Without(list, id) == rest;
      }
    }
  }

  lemma {:induction false} ViewOfAdded(list: seq<Msg>, m: Msg)
    requires FindIndex(list, m.messageId) < 0
    ensures ViewOf(list + [m]) == ViewOf(list)[m.messageId := Erase(m)]
  {
    if list == [] {
      assert (list + [m])[1..] == [];
    } else {
      assert (list + [m])[1..] == list[1..] + [m];
      ViewOfAdded(list[1..], m);
    }
  }

  lemma {:induction false} ViewOfMarked(list: seq<Msg>, id: string)
    ensures ViewOf(MarkAcked(list, id)) == ViewOf(list)
  {
    if list == [] {
    } else {
      ViewOfMarked(list[1..], id);
      assert MarkAcked(list, id)[1..] == MarkAcked(list[1..], id);
    }
  }

  /** What an update does to the list is what it does to the messages by id. */
  lemma UpdateMeaning(list: seq<Msg>, m: Msg)
    requires KeepsId(m)
    ensures ViewOf(Update(list, m)) == UpdateView(ViewOf(list), m)
  {
    if IsAmend(m) {
      ViewLookup(list, m.amend.value.messageId);
      if FindIndex(list, m.amend.value.messageId) >= 0 {
        ViewOfReplaced(list, m.amend.value.messageId, m.amend.value.newMessage);
      }
    } else if IsDelete(m) {
      ViewWithout(list, m.delete.value);
    } else {
      ViewLookup(list, m.messageId);
      if FindIndex(list, m.messageId) < 0 {
        ViewOfAdded(list, m);
      }
    }
  }

  lemma {:induction false} DistinctWithout(list: seq<Msg>, id: string)
    requires DistinctIds(list)
    ensures DistinctIds(Without(list, id))
    ensures forall m :: m in Without(list, id) ==> m in list
  {
    if list == [] {
    } else {
      DistinctWithout(list[1..], id);
      assert forall m :: m in list[1..] ==> m.messageId != list[0].messageId;
    }
  }

  lemma DistinctKept(list: seq<Msg>, m: Msg)
    requires DistinctIds(list) && KeepsId(m)
    ensures DistinctIds(Update(list, m))
  {
    if IsDelete(m) {
      DistinctWithout(list, m.delete.value);
    }
  }

  // ---------------------------------------------------------------- two peers

  /** One peer: its list, the messages on their way to it, and the ids it has applied (history). */
  datatype Side = Side(list: seq<Msg>, inbox: seq<Msg>, applied: set<string>)

  /** `authors` records every id ever used and who used it (history). */
  datatype State = State(alice: Side, bob: Side, authors: map<string, Peer>)

  const INIT := State(Side([], [], {}), Side([], [], {}), map[])

  function At(s: State, p: Peer): Side {
    if p.Alice? then s.alice else s.bob
  }

  function With(s: State, p: Peer, side: Side): State {
    if p.Alice? then s.(alice := side) else s.(bob := side)
  }

  datatype Step =
    | Send(p: Peer, id: string, body: string)
    | AmendOwn(p: Peer, id: string, target: string, body: string)
    | DeleteHeld(p: Peer, id: string, target: string)
    | Deliver(p: Peer, ackId: string)

  /** An id nobody has used, as randomUUID gives. */
  predicate Fresh(s: State, id: string) {
    id != "" && id !in s.authors
  }

  predicate Holds(s: State, p: Peer, id: string) {
    FindIndex(At(s, p).list, id) >= 0
  }

  /**
   * A peer amends messages it wrote only: sendAmendMsg looks for the channel
   * to the addressee of the message, and there is none to oneself.
   */
  predicate Enabled(s: State, step: Step) {
    match step
    case Send(p, id, _) => Fresh(s, id)
    case AmendOwn(p, id, target, _) =>
      && Fresh(s, id) && Holds(s, p, target)
      && At(s, p).list[FindIndex(At(s, p).list, target)].from == p
    case DeleteHeld(p, id, target) => Fresh(s, id) && Holds(s, p, target)
    case Deliver(p, _) => At(s, p).inbox != []
  }

  /** The request a local operation applies and sends. */
  function RequestOf(s: State, step: Step): Msg
    requires Enabled(s, step) && !step.Deliver?
  {
    match step
    case Send(p, id, body) => Msg(id, p, body, false, None, None, None)
    case AmendOwn(p, id, target, body) =>
      var shown := At(s, p).list[FindIndex(At(s, p).list, target)];
      Msg(id, p, "", false, Some(Amend(target, shown.(body := body))), None, None)
    case DeleteHeld(p, id, target) => Msg(id, p, "", false, None, Some(target), None)
  }

  function DoLocal(s: State, p: Peer, m: Msg): State {
    var me, peer := At(s, p), At(s, Other(p));
    var t := With(s, p, me.(list := Update(me.list, m)));
    With(t, Other(p), peer.(inbox := peer.inbox + [m])).(authors := s.authors[m.messageId := p])
  }

  function DoDeliver(s: State, p: Peer, ackId: string): State
    requires At(s, p).inbox != []
  {
    var me, peer := At(s, p), At(s, Other(p));
    var m := me.inbox[0];
    if m.ack.Some? then
      With(s, p, me.(list := MarkAcked(me.list, m.ack.value), inbox := me.inbox[1..]))
    else
      var t := With(s, p, Side(Update(me.list, m), me.inbox[1..], me.applied + {m.messageId}));
      With(t, Other(p), peer.(inbox := peer.inbox + [Msg(ackId, p, "", false, None, None, Some(m.messageId))]))
  }

  function Next(s: State, step: Step): State {
    if !Enabled(s, step) then s
    else if step.Deliver? then DoDeliver(s, step.p, step.ackId)
    else DoLocal(s, step.p, RequestOf(s, step))
  }

  function Exec(s: State, steps: seq<Step>): State
    decreases |steps|
  {
    if steps == [] then s else Exec(Next(s, steps[0]), steps[1..])
  }

  // ---------------------------------------------------------------- operations that commute

  function Target(m: Msg): string {
    if IsAmend(m) then m.amend.value.messageId else if IsDelete(m) then m.delete.value else m.messageId
  }

  /** Requests that concern different messages, or of which one deletes and the other deletes or amends. */
  predicate Independent(a: Msg, b: Msg) {
    || Target(a) != Target(b)
    || (IsDelete(a) && (IsDelete(b) || IsAmend(b)))
    || (IsDelete(b) && (IsDelete(a) || IsAmend(a)))
  }

  lemma IndependentCommute(v: View, a: Msg, b: Msg)
    requires KeepsId(a) && KeepsId(b) && Independent(a, b)
    ensures UpdateView(UpdateView(v, a), b) == UpdateView(UpdateView(v, b), a)
  {
  }

  /** Two amends of one message are the exception: they commute exactly when they agree. */
  lemma AmendsCommute(v: View, a: Msg, b: Msg)
    requires IsAmend(a) && IsAmend(b) && Target(a) == Target(b) && Target(a) in v
    ensures UpdateView(UpdateView(v, a), b) == UpdateView(UpdateView(v, b), a)
            <==> Erase(a.amend.value.newMessage) == Erase(b.amend.value.newMessage)
  {
    assert UpdateView(UpdateView(v, a), b)[Target(a)] == Erase(b.amend.value.newMessage);
    assert UpdateView(UpdateView(v, b), a)[Target(a)] == Erase(a.amend.value.newMessage);
  }

  /** The view after everything in a queue has been applied; acknowledgements do not count. */
  function Settled(v: View, q: seq<Msg>): View
    decreases |q|
  {
    if q == [] then v else Settled(if q[0].ack.Some? then v else UpdateView(v, q[0]), q[1..])
  }

  lemma {:induction false} SettledAppend(v: View, q: seq<Msg>, m: Msg)
    ensures Settled(v, q + [m]) == if m.ack.Some? then Settled(v, q) else UpdateView(Settled(v, q), m)
    decreases |q|
  {
    if q == [] {
      assert (q + [m])[1..] == [];
    } else {
      assert (q + [m])[1..] == q[1..] + [m];
      SettledAppend(if q[0].ack.Some? then v else UpdateView(v, q[0]), q[1..], m);
    }
  }

  /** An operation made now is as good as one made after everything on its way has arrived. */
  lemma {:induction false} SettledCommutes(v: View, q: seq<Msg>, m: Msg)
    requires KeepsId(m)
    requires forall x :: x in q && x.ack.None? ==> KeepsId(x) && Independent(m, x)
    ensures Settled(UpdateView(v, m), q) == UpdateView(Settled(v, q), m)
    decreases |q|
  {
    if q == [] {
    } else {
      assert q[0] in q;
      if q[0].ack.None? {
        IndependentCommute(v, m, q[0]);
      }
      SettledCommutes(if q[0].ack.Some? then v else UpdateView(v, q[0]), q[1..], m);
    }
  }

  // ---------------------------------------------------------------- invariant

  predicate IsAdd(m: Msg) {
    m.ack.None? && IsAddition(m)
  }

  /** A request that peer p made. */
  ghost predicate RequestOk(m: Msg, p: Peer, authors: map<string, Peer>) {
    && m.from == p && m.ack.None? && KeepsId(m)
    && m.messageId != "" && m.messageId in authors && authors[m.messageId] == p
    && Target(m) in authors && (!IsDelete(m) ==> authors[Target(m)] == p)
    && (IsAmend(m) ==> m.amend.value.newMessage.from == p)
  }

  ghost predicate ListOk(list: seq<Msg>, authors: map<string, Peer>) {
    && DistinctIds(list)
    && forall m :: m in list ==> m.messageId in authors && authors[m.messageId] == m.from && m.messageId != ""
  }

  ghost predicate InboxOk(inbox: seq<Msg>, sender: Peer, authors: map<string, Peer>) {
    forall m :: m in inbox && m.ack.None? ==> RequestOk(m, sender, authors)
  }

  /** A message on its way is new to the list, and comes once. */
  ghost predicate NewOnArrival(side: Side) {
    && (forall i :: 0 <= i < |side.inbox| && IsAdd(side.inbox[i]) ==> side.inbox[i].messageId !in ViewOf(side.list))
    && (forall i, j :: 0 <= i < j < |side.inbox| && IsAdd(side.inbox[i]) && IsAdd(side.inbox[j]) ==>
          side.inbox[i].messageId != side.inbox[j].messageId)
  }

  /** Acknowledgements, and the flags they set, are for what the peer has applied. */
  ghost predicate AcksOk(me: Side, p: Peer, peerApplied: set<string>) {
    && (forall m :: m in me.inbox && m.ack.Some? ==> m.ack.value in peerApplied)
    && (forall m :: m in me.list && m.from == p && m.acked ==> m.messageId in peerApplied)
  }

  ghost predicate SideInv(s: State, p: Peer) {
    && ListOk(At(s, p).list, s.authors)
    && InboxOk(At(s, p).inbox, Other(p), s.authors)
    && NewOnArrival(At(s, p))
    && AcksOk(At(s, p), p, At(s, Other(p)).applied)
  }

  /** Were everything on its way to arrive, the two lists would show the same. */
  ghost predicate InSync(s: State) {
    Settled(ViewOf(s.alice.list), s.alice.inbox) == Settled(ViewOf(s.bob.list), s.bob.inbox)
  }

  ghost predicate Inv(s: State) {
    SideInv(s, Alice) && SideInv(s, Bob) && InSync(s)
  }

  lemma ViewKeysAreAuthored(list: seq<Msg>, authors: map<string, Peer>, id: string)
    requires ListOk(list, authors) && id in ViewOf(list)
    ensures id in authors && FindIndex(list, id) >= 0 && authors[id] == list[FindIndex(list, id)].from
  {
    ViewLookup(list, id);
    assert list[FindIndex(list, id)] in list;
  }

  /** A local request is well formed and independent of everything on its way here. */
  lemma RequestFits(s: State, step: Step)
    requires Inv(s) && Enabled(s, step) && !step.Deliver?
    ensures var m := RequestOf(s, step);
      && RequestOk(m, step.p, s.authors[m.messageId := step.p])
      && (forall x :: x in At(s, step.p).inbox && x.ack.None? ==> KeepsId(x) && Independent(m, x))
  {
    var m, me := RequestOf(s, step), At(s, step.p);
    assert SideInv(s, step.p);
    if !step.Send? {
      ViewLookup(me.list, step.target);
      ViewKeysAreAuthored(me.list, s.authors, step.target);
      assert me.list[FindIndex(me.list, step.target)] in me.list;
    }
    forall x | x in me.inbox && x.ack.None?
      ensures KeepsId(x) && Independent(m, x)
    {
      assert RequestOk(x, Other(step.p), s.authors);
      if IsAdd(x) {
        var i :| 0 <= i < |me.inbox| && me.inbox[i] == x;
        assert IsAdd(me.inbox[i]);
      }
    }
  }

  lemma LocalSync(s: State, p: Peer, m: Msg)
    requires InSync(s) && KeepsId(m) && m.ack.None?
    requires forall x :: x in At(s, p).inbox && x.ack.None? ==> KeepsId(x) && Independent(m, x)
    ensures InSync(DoLocal(s, p, m))
  {
    var me, peer := At(s, p), At(s, Other(p));
    UpdateMeaning(me.list, m);
    SettledCommutes(ViewOf(me.list), me.inbox, m);
    SettledAppend(ViewOf(peer.list), peer.inbox, m);
  }

  lemma DeliverSync(s: State, p: Peer, ackId: string)
    requires InSync(s) && At(s, p).inbox != [] && (At(s, p).inbox[0].ack.None? ==> KeepsId(At(s, p).inbox[0]))
    ensures InSync(DoDeliver(s, p, ackId))
  {
    var me, peer := At(s, p), At(s, Other(p));
    var m := me.inbox[0];
    if m.ack.Some? {
      ViewOfMarked(me.list, m.ack.value);
    } else {
      UpdateMeaning(me.list, m);
      SettledAppend(ViewOf(peer.list), peer.inbox, Msg(ackId, p, "", false, None, None, Some(m.messageId)));
    }
  }

  /** Ids keep their authors. */
  ghost predicate Grows(authors: map<string, Peer>, later: map<string, Peer>) {
    forall id :: id in authors ==> id in later && later[id] == authors[id]
  }

  lemma UpdateMembers(list: seq<Msg>, m: Msg)
    ensures forall x :: x in Update(list, m) ==>
              || x in list
              || (IsAmend(m) && x == m.amend.value.newMessage && FindIndex(list, Target(m)) >= 0)
              || (IsAddition(m) && x == m)
  {
    if IsDelete(m) {
      WithoutMembers(list, m.delete.value);
    }
  }

  lemma {:induction false} WithoutMembers(list: seq<Msg>, id: string)
    ensures forall x :: x in Without(list, id) ==> x in list
  {
    if list == [] {
    } else {
      WithoutMembers(list[1..], id);
    }
  }

  lemma UpdateKeepsListOk(list: seq<Msg>, m: Msg, p: Peer, authors: map<string, Peer>)
    requires ListOk(list, authors) && RequestOk(m, p, authors)
    ensures ListOk(Update(list, m), authors)
  {
    DistinctKept(list, m);
    UpdateMembers(list, m);
    if IsAmend(m) && FindIndex(list, Target(m)) >= 0 {
      assert list[FindIndex(list, Target(m))] in list;
    }
  }

  /** Nothing but an added message is new to the view. */
  lemma UpdateKeys(list: seq<Msg>, m: Msg, id: string)
    requires KeepsId(m) && id in ViewOf(Update(list, m))
    ensures id in ViewOf(list) || (IsAddition(m) && id == m.messageId)
  {
    UpdateMeaning(list, m);
  }

  lemma LocalActor(s: State, step: Step)
    requires Inv(s) && Enabled(s, step) && !step.Deliver?
    ensures SideInv(Next(s, step), step.p)
  {
    var m, p, t := RequestOf(s, step), step.p, Next(s, step);
    var me := At(s, p);
    assert SideInv(s, p);
    RequestFits(s, step);
    assert Grows(s.authors, t.authors);
    UpdateKeepsListOk(me.list, m, p, t.authors);
    forall x | x in me.inbox && x.ack.None?
      ensures RequestOk(x, Other(p), t.authors)
    {
      assert RequestOk(x, Other(p), s.authors);
    }
    forall i | 0 <= i < |me.inbox| && IsAdd(me.inbox[i])
      ensures me.inbox[i].messageId !in ViewOf(At(t, p).list)
    {
      assert RequestOk(me.inbox[i], Other(p), s.authors);
      if me.inbox[i].messageId in ViewOf(At(t, p).list) {
        UpdateKeys(me.list, m, me.inbox[i].messageId);
      }
    }
    UpdateMembers(me.list, m);
    if step.AmendOwn? {
      assert me.list[FindIndex(me.list, step.target)] in me.list;
    }
  }

  lemma ListKept(list: seq<Msg>, authors: map<string, Peer>, later: map<string, Peer>)
    requires ListOk(list, authors) && Grows(authors, later)
    ensures ListOk(list, later)
  {
  }

  lemma InboxExtended(inbox: seq<Msg>, m: Msg, sender: Peer, authors: map<string, Peer>, later: map<string, Peer>)
    requires InboxOk(inbox, sender, authors) && Grows(authors, later)
    requires m.ack.None? ==> RequestOk(m, sender, later)
    ensures InboxOk(inbox + [m], sender, later)
  {
    forall x | x in inbox + [m] && x.ack.None?
      ensures RequestOk(x, sender, later)
    {
      if x != m {
        assert RequestOk(x, sender, authors);
      }
    }
  }

  lemma NewOnArrivalExtended(me: Side, m: Msg)
    requires NewOnArrival(me)
    requires IsAdd(m) ==> m.messageId !in ViewOf(me.list)
    requires forall i :: 0 <= i < |me.inbox| && IsAdd(me.inbox[i]) && IsAdd(m) ==> me.inbox[i].messageId != m.messageId
    ensures NewOnArrival(me.(inbox := me.inbox + [m]))
  {
  }

  lemma AcksExtended(me: Side, m: Msg, p: Peer, applied: set<string>, later: set<string>)
    requires AcksOk(me, p, applied) && applied <= later && (m.ack.Some? ==> m.ack.value in later)
    ensures AcksOk(me.(inbox := me.inbox + [m]), p, later)
  {
  }

  lemma LocalPeer(s: State, step: Step)
    requires Inv(s) && Enabled(s, step) && !step.Deliver?
    ensures SideInv(Next(s, step), Other(step.p))
  {
    var m, q, t := RequestOf(s, step), Other(step.p), Next(s, step);
    var peer := At(s, q);
    assert SideInv(s, q);
    RequestFits(s, step);
    ListKept(peer.list, s.authors, t.authors);
    InboxExtended(peer.inbox, m, step.p, s.authors, t.authors);
    if m.messageId in ViewOf(peer.list) {
      ViewKeysAreAuthored(peer.list, s.authors, m.messageId);
    }
    forall i | 0 <= i < |peer.inbox| && IsAdd(peer.inbox[i])
      ensures peer.inbox[i].messageId != m.messageId
    {
      assert RequestOk(peer.inbox[i], step.p, s.authors);
    }
    NewOnArrivalExtended(peer, m);
    AcksExtended(peer, m, q, At(s, step.p).applied, At(s, step.p).applied);
  }

  lemma MarkedMembers(list: seq<Msg>, id: string)
    ensures forall x :: x in MarkAcked(list, id) ==>
              x in list || (x.messageId == id && exists y :: y in list && x == y.(acked := true))
  {
    forall x | x in MarkAcked(list, id)
      ensures x in list || (x.messageId == id && exists y :: y in list && x == y.(acked := true))
    {
      var i :| 0 <= i < |list| && MarkAcked(list, id)[i] == x;
      assert list[i] in list;
    }
  }

  /** A message taken from the inbox brings no id but its own to the list. */
  lemma NewOnArrivalAfter(me: Side, m: Msg, later: Side)
    requires NewOnArrival(me) && me.inbox == [m] + later.inbox
    requires forall id :: id in ViewOf(later.list) ==> id in ViewOf(me.list) || (IsAdd(m) && id == m.messageId)
    ensures NewOnArrival(later)
  {
    assert forall i :: 0 <= i < |later.inbox| ==> me.inbox[i + 1] == later.inbox[i];
    assert me.inbox[0] == m;
  }

  lemma MarkedKeepsListOk(list: seq<Msg>, id: string, authors: map<string, Peer>)
    requires ListOk(list, authors)
    ensures ListOk(MarkAcked(list, id), authors)
  {
    MarkedMembers(list, id);
  }

  lemma AckActor(s: State, p: Peer, ackId: string)
    requires SideInv(s, p) && At(s, p).inbox != [] && At(s, p).inbox[0].ack.Some?
    ensures SideInv(DoDeliver(s, p, ackId), p)
  {
    var me, t := At(s, p), DoDeliver(s, p, ackId);
    var m := me.inbox[0];
    assert me.inbox == [m] + me.inbox[1..];
    MarkedKeepsListOk(me.list, m.ack.value, s.authors);
    ViewOfMarked(me.list, m.ack.value);
    NewOnArrivalAfter(me, m, At(t, p));
    MarkedMembers(me.list, m.ack.value);
  }

  lemma RequestActor(s: State, p: Peer, ackId: string)
    requires SideInv(s, p) && At(s, p).inbox != [] && At(s, p).inbox[0].ack.None?
    ensures SideInv(DoDeliver(s, p, ackId), p)
  {
    var t, me := DoDeliver(s, p, ackId), At(s, p);
    var m := me.inbox[0];
    assert me.inbox == [m] + me.inbox[1..];
    assert RequestOk(m, Other(p), s.authors);
    UpdateKeepsListOk(me.list, m, Other(p), s.authors);
    UpdateMembers(me.list, m);
    forall id | id in ViewOf(At(t, p).list)
      ensures id in ViewOf(me.list) || (IsAdd(m) && id == m.messageId)
    {
      UpdateKeys(me.list, m, id);
    }
    NewOnArrivalAfter(me, m, At(t, p));
  }

  lemma DeliverPeer(s: State, p: Peer, ackId: string)
    requires Inv(s) && At(s, p).inbox != []
    ensures SideInv(DoDeliver(s, p, ackId), Other(p))
  {
    var q := Other(p);
    var me, peer, m := At(s, p), At(s, q), At(s, p).inbox[0];
    assert SideInv(s, q);
    if m.ack.None? {
      var ack := Msg(ackId, p, "", false, None, None, Some(m.messageId));
      InboxExtended(peer.inbox, ack, p, s.authors, s.authors);
      NewOnArrivalExtended(peer, ack);
      AcksExtended(peer, ack, q, me.applied, me.applied + {m.messageId});
    }
  }

  lemma NextInv(s: State, step: Step)
    requires Inv(s)
    ensures Inv(Next(s, step))
  {
    if Enabled(s, step) {
      assert SideInv(s, step.p);
      if step.Deliver? {
        assert At(s, step.p).inbox[0] in At(s, step.p).inbox;
        if At(s, step.p).inbox[0].ack.Some? {
          AckActor(s, step.p, step.ackId);
        } else {
          RequestActor(s, step.p, step.ackId);
        }
        DeliverPeer(s, step.p, step.ackId);
        DeliverSync(s, step.p, step.ackId);
      } else {
        RequestFits(s, step);
        LocalActor(s, step);
        LocalPeer(s, step);
        LocalSync(s, step.p, RequestOf(s, step));
      }
    }
  }

  lemma {:induction false} ExecInv(s: State, steps: seq<Step>)
    requires Inv(s)
    ensures Inv(Exec(s, steps))
    decreases |steps|
  {
    if steps == [] {
    } else {
      NextInv(s, steps[0]);
      ExecInv(Next(s, steps[0]), steps[1..]);
    }
  }

  // ---------------------------------------------------------------- results about every run

  lemma {:induction false} OnlyAcksSettle(v: View, q: seq<Msg>)
    requires forall m :: m in q ==> m.ack.Some?
    ensures Settled(v, q) == v
    decreases |q|
  {
    if q == [] {
    } else {
      assert q[0] in q;
      OnlyAcksSettle(v, q[1..]);
    }
  }

  /** Nothing but acknowledgements is on its way. */
  ghost predicate RequestsDelivered(s: State) {
    forall m :: m in s.alice.inbox || m in s.bob.inbox ==> m.ack.Some?
  }

  /** Once all requests have been delivered both peers hold the same messages, and no id twice. */
  lemma Convergence(steps: seq<Step>)
    ensures
      var s := Exec(INIT, steps);
      && DistinctIds(s.alice.list) && DistinctIds(s.bob.list)
      && (RequestsDelivered(s) ==> ViewOf(s.alice.list) == ViewOf(s.bob.list))
  {
    ExecInv(INIT, steps);
    var s := Exec(INIT, steps);
    assert SideInv(s, Alice) && SideInv(s, Bob);
    if RequestsDelivered(s) {
      OnlyAcksSettle(ViewOf(s.alice.list), s.alice.inbox);
      OnlyAcksSettle(ViewOf(s.bob.list), s.bob.inbox);
    }
  }

  /** Messages of one's own appear on the screen only when acknowledged. */
  predicate Displayed(m: Msg, p: Peer) {
    m.acked || m.from != p
  }

  /** An own message on the screen has been applied by the peer. */
  lemma DisplayedWasApplied(steps: seq<Step>, p: Peer, m: Msg)
    ensures
      var s := Exec(INIT, steps);
      m in At(s, p).list && m.from == p && Displayed(m, p) ==> m.messageId in At(s, Other(p)).applied
  {
    ExecInv(INIT, steps);
    assert SideInv(Exec(INIT, steps), p);
  }

  /** An acknowledgement on its way is for a request the peer has applied. */
  lemma AckMeansApplied(steps: seq<Step>, p: Peer, m: Msg)
    ensures
      var s := Exec(INIT, steps);
      m in At(s, p).inbox && m.ack.Some? ==> m.ack.value in At(s, Other(p)).applied
  {
    ExecInv(INIT, steps);
    assert SideInv(Exec(INIT, steps), p);
  }

  // ---------------------------------------------------------------- each request is applied once

  /** Requests on their way differ from each other and from those applied. */
  ghost predicate OnceOn(me: Side, authors: map<string, Peer>) {
    && (forall i :: 0 <= i < |me.inbox| && me.inbox[i].ack.None? ==> me.inbox[i].messageId !in me.applied)
    && (forall i, j :: 0 <= i < j < |me.inbox| && me.inbox[i].ack.None? && me.inbox[j].ack.None? ==>
          me.inbox[i].messageId != me.inbox[j].messageId)
    && (forall id :: id in me.applied ==> id in authors)
  }

  ghost predicate AppliedOnce(s: State, p: Peer) {
    OnceOn(At(s, p), s.authors)
  }

  lemma OnceExtended(me: Side, m: Msg, authors: map<string, Peer>, later: map<string, Peer>)
    requires OnceOn(me, authors) && Grows(authors, later)
    requires m.ack.None? ==> m.messageId !in authors
    requires forall x :: x in me.inbox && x.ack.None? ==> x.messageId in authors
    ensures OnceOn(me.(inbox := me.inbox + [m]), later)
  {
  }

  lemma OnceKept(me: Side, later: Side, authors: map<string, Peer>, more: map<string, Peer>)
    requires OnceOn(me, authors) && Grows(authors, more)
    requires later.inbox == me.inbox && later.applied == me.applied
    ensures OnceOn(later, more)
  {
  }

  lemma OnceTaken(me: Side, m: Msg, later: Side, authors: map<string, Peer>)
    requires OnceOn(me, authors) && me.inbox == [m] + later.inbox
    requires later.applied == if m.ack.Some? then me.applied else me.applied + {m.messageId}
    requires m.ack.None? ==> m.messageId in authors
    ensures OnceOn(later, authors)
  {
    assert me.inbox[0] == m;
    assert forall i :: 0 <= i < |later.inbox| ==> me.inbox[i + 1] == later.inbox[i];
  }

  lemma AppliedOnceLocal(s: State, step: Step, p: Peer)
    requires Inv(s) && AppliedOnce(s, p) && Enabled(s, step) && !step.Deliver?
    ensures AppliedOnce(Next(s, step), p)
  {
    var m, t, me := RequestOf(s, step), Next(s, step), At(s, p);
    assert Grows(s.authors, t.authors);
    if p == step.p {
      OnceKept(me, At(t, p), s.authors, t.authors);
    } else {
      assert SideInv(s, p);
      forall x | x in me.inbox && x.ack.None?
        ensures x.messageId in s.authors
      {
        assert RequestOk(x, Other(p), s.authors);
      }
      OnceExtended(me, m, s.authors, t.authors);
    }
  }

  lemma AppliedOnceDeliver(s: State, q: Peer, ackId: string, p: Peer)
    requires Inv(s) && AppliedOnce(s, p) && At(s, q).inbox != []
    ensures AppliedOnce(DoDeliver(s, q, ackId), p)
  {
    var me, t, m := At(s, p), DoDeliver(s, q, ackId), At(s, q).inbox[0];
    assert SideInv(s, p);
    forall x | x in me.inbox && x.ack.None?
      ensures x.messageId in s.authors
    {
      assert RequestOk(x, Other(p), s.authors);
    }
    if p == q {
      assert m in me.inbox && me.inbox == [m] + At(t, p).inbox;
      OnceTaken(me, m, At(t, p), s.authors);
    } else if m.ack.None? {
      OnceExtended(me, Msg(ackId, q, "", false, None, None, Some(m.messageId)), s.authors, s.authors);
    }
  }

  lemma AppliedOnceStep(s: State, step: Step, p: Peer)
    requires Inv(s) && AppliedOnce(s, p)
    ensures AppliedOnce(Next(s, step), p)
  {
    if Enabled(s, step) {
      if step.Deliver? {
        AppliedOnceDeliver(s, step.p, step.ackId, p);
      } else {
        AppliedOnceLocal(s, step, p);
      }
    }
  }

  lemma {:induction false} ExecAppliesOnce(s: State, steps: seq<Step>, p: Peer)
    requires Inv(s) && AppliedOnce(s, p)
    ensures AppliedOnce(Exec(s, steps), p)
    decreases |steps|
  {
    if steps == [] {
    } else {
      NextInv(s, steps[0]);
      AppliedOnceStep(s, steps[0], p);
      ExecAppliesOnce(Next(s, steps[0]), steps[1..], p);
    }
  }

  /** In every run a request that has been applied is not on its way again. */
  lemma RequestsApplyOnce(steps: seq<Step>, p: Peer, m: Msg)
    ensures
      var s := Exec(INIT, steps);
      m in At(s, p).inbox && m.ack.None? ==> m.messageId !in At(s, p).applied
  {
    ExecAppliesOnce(INIT, steps, p);
  }

  /** What an update does to the presence of one id. */
  lemma UpdateHolds(list: seq<Msg>, m: Msg, id: string)
    requires KeepsId(m)
    ensures FindIndex(Update(list, m), id) >= 0
            <==> (FindIndex(list, id) >= 0 && !(IsDelete(m) && m.delete.value == id))
                 || (IsAddition(m) && m.messageId == id)
  {
    UpdateMeaning(list, m);
    ViewLookup(list, id);
    ViewLookup(Update(list, m), id);
  }

  lemma MarkedHolds(list: seq<Msg>, ack: string, id: string)
    ensures FindIndex(MarkAcked(list, ack), id) >= 0 <==> FindIndex(list, id) >= 0
  {
    ViewOfMarked(list, ack);
    ViewLookup(list, id);
    ViewLookup(MarkAcked(list, ack), id);
  }

  // ---------------------------------------------------------------- own messages come to the screen

  /** The peer has yet to apply the message, or its acknowledgement is on the way. */
  ghost predicate Awaited(peerInbox: seq<Msg>, inbox: seq<Msg>, id: string) {
    || (exists x :: x in peerInbox && x.ack.None? && x.messageId == id)
    || (exists x :: x in inbox && x.ack == Some(id))
  }

  ghost predicate AcksAwaited(s: State, p: Peer) {
    forall m :: m in At(s, p).list && m.from == p && !m.acked ==>
      Awaited(At(s, Other(p)).inbox, At(s, p).inbox, m.messageId)
  }

  lemma AwaitedKept(peerInbox: seq<Msg>, inbox: seq<Msg>, peerLater: seq<Msg>, later: seq<Msg>, id: string)
    requires Awaited(peerInbox, inbox, id)
    requires forall x :: x in peerInbox && x.ack.None? && x.messageId == id ==> x in peerLater
    requires forall x :: x in inbox && x.ack == Some(id) ==> x in later
    ensures Awaited(peerLater, later, id)
  {
  }

  lemma LocalAwaits(s: State, step: Step)
    requires Inv(s) && Enabled(s, step) && !step.Deliver? && AcksAwaited(s, step.p)
    ensures AcksAwaited(Next(s, step), step.p)
  {
    var m, p, t := RequestOf(s, step), step.p, Next(s, step);
    var me, peer := At(s, p), At(s, Other(p));
    assert At(t, Other(p)).inbox == peer.inbox + [m] && At(t, p).inbox == me.inbox;
    UpdateMembers(me.list, m);
    forall x | x in At(t, p).list && x.from == p && !x.acked
      ensures Awaited(At(t, Other(p)).inbox, me.inbox, x.messageId)
    {
      if x == m {
        assert m in At(t, Other(p)).inbox;
      } else if x in me.list {
        AwaitedKept(peer.inbox, me.inbox, At(t, Other(p)).inbox, me.inbox, x.messageId);
      } else {
        var shown := me.list[FindIndex(me.list, step.target)];
        assert shown in me.list && shown.messageId == x.messageId;
        AwaitedKept(peer.inbox, me.inbox, At(t, Other(p)).inbox, me.inbox, x.messageId);
      }
    }
  }

  lemma PeerLocalAwaits(s: State, step: Step)
    requires Enabled(s, step) && !step.Deliver? && AcksAwaited(s, Other(step.p))
    ensures AcksAwaited(Next(s, step), Other(step.p))
  {
    var q, t := Other(step.p), Next(s, step);
    forall x | x in At(t, q).list && x.from == q && !x.acked
      ensures Awaited(At(t, step.p).inbox, At(t, q).inbox, x.messageId)
    {
      AwaitedKept(At(s, step.p).inbox, At(s, q).inbox, At(t, step.p).inbox, At(t, q).inbox, x.messageId);
    }
  }

  lemma DeliverAwaits(s: State, p: Peer, ackId: string)
    requires Inv(s) && At(s, p).inbox != [] && AcksAwaited(s, p)
    ensures AcksAwaited(DoDeliver(s, p, ackId), p)
  {
    var t, me, peer := DoDeliver(s, p, ackId), At(s, p), At(s, Other(p));
    var m := me.inbox[0];
    assert SideInv(s, p) && m in me.inbox;
    assert me.inbox == [m] + me.inbox[1..];
    if m.ack.Some? {
      MarkedMembers(me.list, m.ack.value);
    } else {
      assert RequestOk(m, Other(p), s.authors);
      UpdateMembers(me.list, m);
    }
    forall x | x in At(t, p).list && x.from == p && !x.acked
      ensures Awaited(At(t, Other(p)).inbox, At(t, p).inbox, x.messageId)
    {
      assert x in me.list;
      AwaitedKept(peer.inbox, me.inbox, At(t, Other(p)).inbox, At(t, p).inbox, x.messageId);
    }
  }

  lemma PeerDeliverAwaits(s: State, p: Peer, ackId: string)
    requires At(s, p).inbox != [] && AcksAwaited(s, Other(p))
    ensures AcksAwaited(DoDeliver(s, p, ackId), Other(p))
  {
    var t, q, m := DoDeliver(s, p, ackId), Other(p), At(s, p).inbox[0];
    assert At(s, p).inbox == [m] + At(t, p).inbox;
    forall x | x in At(t, q).list && x.from == q && !x.acked
      ensures Awaited(At(t, p).inbox, At(t, q).inbox, x.messageId)
    {
      if m.ack.None? && m.messageId == x.messageId {
        assert Msg(ackId, p, "", false, None, None, Some(m.messageId)) in At(t, q).inbox;
      } else {
        AwaitedKept(At(s, p).inbox, At(s, q).inbox, At(t, p).inbox, At(t, q).inbox, x.messageId);
      }
    }
  }

  lemma {:induction false} ExecAwaits(s: State, steps: seq<Step>)
    requires Inv(s) && AcksAwaited(s, Alice) && AcksAwaited(s, Bob)
    ensures AcksAwaited(Exec(s, steps), Alice) && AcksAwaited(Exec(s, steps), Bob)
    decreases |steps|
  {
    if steps == [] {
    } else {
      var step := steps[0];
      if Enabled(s, step) {
        if step.Deliver? {
          DeliverAwaits(s, step.p, step.ackId);
          PeerDeliverAwaits(s, step.p, step.ackId);
        } else {
          LocalAwaits(s, step);
          PeerLocalAwaits(s, step);
        }
      }
      NextInv(s, step);
      ExecAwaits(Next(s, step), steps[1..]);
    }
  }

  /** Once everything has been delivered each peer has on its screen all the messages both hold. */
  lemma AllDisplayedInTheEnd(steps: seq<Step>, p: Peer, m: Msg)
    ensures
      var s := Exec(INIT, steps);
      s.alice.inbox == [] && s.bob.inbox == [] && m in At(s, p).list ==> Displayed(m, p)
  {
    ExecAwaits(INIT, steps);
  }

  // ---------------------------------------------------------------- the order of one author's messages

  /** The ids of the messages one peer wrote, in the order of the list. */
  function OrderOf(list: seq<Msg>, author: Peer): seq<string> {
    if list == [] then []
    else (if list[0].from == author then [list[0].messageId] else []) + OrderOf(list[1..], author)
  }

  function Remove(ids: seq<string>, id: string): seq<string> {
    if ids == [] then [] else (if ids[0] != id then [ids[0]] else []) + Remove(ids[1..], id)
  }

  function UpdateOrder(ids: seq<string>, m: Msg, author: Peer): seq<string> {
    if IsAmend(m) then ids
    else if IsDelete(m) then Remove(ids, m.delete.value)
    else if m.from == author then ids + [m.messageId]
    else ids
  }

  lemma {:induction false} OrderAppend(list: seq<Msg>, m: Msg, author: Peer)
    ensures OrderOf(list + [m], author) == OrderOf(list, author) + if m.from == author then [m.messageId] else []
  {
    if list == [] {
      assert (list + [m])[1..] == [];
    } else {
      assert (list + [m])[1..] == list[1..] + [m];
      OrderAppend(list[1..], m, author);
    }
  }

  lemma {:induction false} OrderReplaced(list: seq<Msg>, i: nat, m: Msg, author: Peer)
    requires i < |list| && m.messageId == list[i].messageId && m.from == list[i].from
    ensures OrderOf(list[i := m], author) == OrderOf(list, author)
  {
    if i == 0 {
      assert list[i := m][1..] == list[1..];
    } else {
      assert list[i := m][1..] == list[1..][i - 1 := m];
      OrderReplaced(list[1..], i - 1, m, author);
    }
  }

  lemma OrderHead(list: seq<Msg>, author: Peer)
    requires list != []
    ensures var o, rest := OrderOf(list, author), OrderOf(list[1..], author);
      if list[0].from == author then o != [] && o[0] == list[0].messageId && o[1..] == rest else o == rest
  {
  }

  lemma RemoveHead(ids: seq<string>, id: string)
    requires ids != []
    ensures var r, rest := Remove(ids, id), Remove(ids[1..], id);
      if ids[0] != id then r != [] && r[0] == ids[0] && r[1..] == rest else r == rest
  {
  }

  lemma {:induction false} OrderWithout(list: seq<Msg>, id: string, author: Peer)
    ensures OrderOf(Without(list, id), author) == Remove(OrderOf(list, author), id)
  {
    if list == [] {
    } else {
      var rest := Without(list[1..], id);
      OrderWithout(list[1..], id, author);
      assert if list[0].messageId != id then Without(list, id)[1..] == rest else Without(list, id) == rest;
      OrderHead(list, author);
      if list[0].from == author {
        RemoveHead(OrderOf(list, author), id);
      }
    }
  }

  lemma {:induction false} OrderOfMarked(list: seq<Msg>, id: string, author: Peer)
    ensures OrderOf(MarkAcked(list, id), author) == OrderOf(list, author)
  {
    if list == [] {
    } else {
      OrderOfMarked(list[1..], id, author);
      assert MarkAcked(list, id)[1..] == MarkAcked(list[1..], id);
    }
  }

  /** The message added is new to the list, or the one put in place is by the same author. */
  predicate Fits(list: seq<Msg>, m: Msg) {
    if IsAmend(m) then
      var i := FindIndex(list, m.amend.value.messageId);
      i >= 0 ==> list[i].from == m.amend.value.newMessage.from
    else IsDelete(m) || FindIndex(list, m.messageId) < 0
  }

  lemma UpdateOrderMeaning(list: seq<Msg>, m: Msg, author: Peer)
    requires KeepsId(m) && Fits(list, m)
    ensures OrderOf(Update(list, m), author) == UpdateOrder(OrderOf(list, author), m, author)
  {
    if IsAmend(m) {
      var i := FindIndex(list, m.amend.value.messageId);
      if i >= 0 {
        OrderReplaced(list, i, m.amend.value.newMessage, author);
      }
    } else if IsDelete(m) {
      OrderWithout(list, m.delete.value, author);
    } else {
      OrderAppend(list, m, author);
    }
  }

  lemma {:induction false} RemoveAppend(ids: seq<string>, id: string, gone: string)
    ensures Remove(ids + [id], gone) == Remove(ids, gone) + if id != gone then [id] else []
  {
    if ids == [] {
      assert (ids + [id])[1..] == [];
    } else {
      assert (ids + [id])[1..] == ids[1..] + [id];
      RemoveAppend(ids[1..], id, gone);
    }
  }

  lemma {:induction false} RemoveBoth(ids: seq<string>, a: string, b: string)
    ensures Remove(Remove(ids, a), b) == Remove(Remove(ids, b), a)
  {
    if ids == [] {
    } else {
      RemoveBoth(ids[1..], a, b);
      RemoveHead(ids, a);
      RemoveHead(ids, b);
    }
  }

  lemma OrdersCommute(ids: seq<string>, a: Msg, b: Msg, author: Peer)
    requires Independent(a, b) && a.from != b.from
    ensures UpdateOrder(UpdateOrder(ids, a, author), b, author) == UpdateOrder(UpdateOrder(ids, b, author), a, author)
  {
    if IsDelete(a) && IsDelete(b) {
      RemoveBoth(ids, a.delete.value, b.delete.value);
    } else if IsDelete(a) && IsAddition(b) {
      RemoveAppend(ids, b.messageId, a.delete.value);
    } else if IsAddition(a) && IsDelete(b) {
      RemoveAppend(ids, a.messageId, b.delete.value);
    }
  }

  function SettledOrder(ids: seq<string>, q: seq<Msg>, author: Peer): seq<string>
    decreases |q|
  {
    if q == [] then ids
    else SettledOrder(if q[0].ack.Some? then ids else UpdateOrder(ids, q[0], author), q[1..], author)
  }

  lemma {:induction false} SettledOrderAppend(ids: seq<string>, q: seq<Msg>, m: Msg, author: Peer)
    ensures SettledOrder(ids, q + [m], author)
         == if m.ack.Some? then SettledOrder(ids, q, author) else UpdateOrder(SettledOrder(ids, q, author), m, author)
    decreases |q|
  {
    if q == [] {
      assert (q + [m])[1..] == [];
    } else {
      assert (q + [m])[1..] == q[1..] + [m];
      SettledOrderAppend(if q[0].ack.Some? then ids else UpdateOrder(ids, q[0], author), q[1..], m, author);
    }
  }

  lemma {:induction false} SettledOrderCommutes(ids: seq<string>, q: seq<Msg>, m: Msg, author: Peer)
    requires forall x :: x in q && x.ack.None? ==> Independent(m, x) && m.from != x.from
    ensures SettledOrder(UpdateOrder(ids, m, author), q, author) == UpdateOrder(SettledOrder(ids, q, author), m, author)
    decreases |q|
  {
    if q == [] {
    } else {
      assert q[0] in q;
      if q[0].ack.None? {
        OrdersCommute(ids, m, q[0], author);
      }
      SettledOrderCommutes(if q[0].ack.Some? then ids else UpdateOrder(ids, q[0], author), q[1..], m, author);
    }
  }

  /** Were everything on its way to arrive, both lists would have this author's messages in the same order. */
  ghost predicate InOrder(s: State, author: Peer) {
    SettledOrder(OrderOf(s.alice.list, author), s.alice.inbox, author)
    == SettledOrder(OrderOf(s.bob.list, author), s.bob.inbox, author)
  }

  lemma LocalOrder(s: State, step: Step, author: Peer)
    requires Inv(s) && InOrder(s, author) && Enabled(s, step) && !step.Deliver?
    ensures InOrder(Next(s, step), author)
  {
    var m, p := RequestOf(s, step), step.p;
    var me, peer := At(s, p), At(s, Other(p));
    assert SideInv(s, p);
    RequestFits(s, step);
    UpdateOrderMeaning(me.list, m, author);
    forall x | x in me.inbox && x.ack.None?
      ensures m.from != x.from
    {
      assert RequestOk(x, Other(p), s.authors);
    }
    SettledOrderCommutes(OrderOf(me.list, author), me.inbox, m, author);
    SettledOrderAppend(OrderOf(peer.list, author), peer.inbox, m, author);
  }

  /** A request that arrives is new to the list, or by the author of what it amends. */
  lemma ArrivalFits(s: State, p: Peer)
    requires SideInv(s, p) && At(s, p).inbox != [] && At(s, p).inbox[0].ack.None?
    ensures KeepsId(At(s, p).inbox[0]) && Fits(At(s, p).list, At(s, p).inbox[0])
  {
    var me, m := At(s, p), At(s, p).inbox[0];
    assert RequestOk(m, Other(p), s.authors);
    if IsAmend(m) {
      var i := FindIndex(me.list, m.amend.value.messageId);
      assert i >= 0 ==> me.list[i] in me.list;
    } else if !IsDelete(m) {
      assert IsAdd(me.inbox[0]);
      ViewLookup(me.list, m.messageId);
    }
  }

  lemma DeliverOrder(s: State, p: Peer, ackId: string, author: Peer)
    requires SideInv(s, p) && InOrder(s, author) && At(s, p).inbox != []
    ensures InOrder(DoDeliver(s, p, ackId), author)
  {
    var me, peer := At(s, p), At(s, Other(p));
    var m := me.inbox[0];
    if m.ack.Some? {
      OrderOfMarked(me.list, m.ack.value, author);
    } else {
      ArrivalFits(s, p);
      UpdateOrderMeaning(me.list, m, author);
      SettledOrderAppend(OrderOf(peer.list, author), peer.inbox,
        Msg(ackId, p, "", false, None, None, Some(m.messageId)), author);
    }
  }

  lemma {:induction false} ExecOrder(s: State, steps: seq<Step>, author: Peer)
    requires Inv(s) && InOrder(s, author)
    ensures InOrder(Exec(s, steps), author)
    decreases |steps|
  {
    if steps == [] {
    } else {
      var step := steps[0];
      if Enabled(s, step) {
        if step.Deliver? {
          assert SideInv(s, step.p);
          DeliverOrder(s, step.p, step.ackId, author);
        } else {
          LocalOrder(s, step, author);
        }
      }
      NextInv(s, step);
      ExecOrder(Next(s, step), steps[1..], author);
    }
  }

  lemma {:induction false} OnlyAcksKeepOrder(ids: seq<string>, q: seq<Msg>, author: Peer)
    requires forall m :: m in q ==> m.ack.Some?
    ensures SettledOrder(ids, q, author) == ids
    decreases |q|
  {
    if q == [] {
    } else {
      assert q[0] in q;
      OnlyAcksKeepOrder(ids, q[1..], author);
    }
  }

  /** Once all requests have been delivered both lists have each author's messages in the same order. */
  lemma OrderConvergence(steps: seq<Step>, author: Peer)
    ensures
      var s := Exec(INIT, steps);
      RequestsDelivered(s) ==> OrderOf(s.alice.list, author) == OrderOf(s.bob.list, author)
  {
    ExecOrder(INIT, steps, author);
    var s := Exec(INIT, steps);
    if RequestsDelivered(s) {
      OnlyAcksKeepOrder(OrderOf(s.alice.list, author), s.alice.inbox, author);
      OnlyAcksKeepOrder(OrderOf(s.bob.list, author), s.bob.inbox, author);
    }
  }

  // ---------------------------------------------------------------- the screens

  /** What a peer sees. */
  function Screen(list: seq<Msg>, p: Peer): seq<Msg> {
    if list == [] then [] else (if Displayed(list[0], p) then [list[0]] else []) + Screen(list[1..], p)
  }

  lemma {:induction false} AllOnScreen(list: seq<Msg>, p: Peer)
    requires forall m :: m in list ==> Displayed(m, p)
    ensures Screen(list, p) == list
  {
    if list == [] {
    } else {
      assert list[0] in list;
      AllOnScreen(list[1..], p);
    }
  }

  /**
   * When everything has been delivered both screens show the same messages,
   * those of each author in the same order.
   */
  lemma ScreensAgree(steps: seq<Step>, author: Peer)
    ensures
      var s := Exec(INIT, steps);
      var a, b := Screen(s.alice.list, Alice), Screen(s.bob.list, Bob);
      s.alice.inbox == [] && s.bob.inbox == [] ==> ViewOf(a) == ViewOf(b) && OrderOf(a, author) == OrderOf(b, author)
  {
    var s := Exec(INIT, steps);
    if s.alice.inbox == [] && s.bob.inbox == [] {
      forall m | m in s.alice.list
        ensures Displayed(m, Alice)
      {
        AllDisplayedInTheEnd(steps, Alice, m);
      }
      forall m | m in s.bob.list
        ensures Displayed(m, Bob)
      {
        AllDisplayedInTheEnd(steps, Bob, m);
      }
      AllOnScreen(s.alice.list, Alice);
      AllOnScreen(s.bob.list, Bob);
      Convergence(steps);
      OrderConvergence(steps, author);
    }
  }
}
