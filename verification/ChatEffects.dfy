/**
 * What each operation of a conversation does, and what the two peers end up
 * with because of it (webrtc-web/app/page.tsx), in terms of the messages and
 * their fields.
 */
module ChatEffects {
  import opened Wrappers
  import opened ChatReplica

  /** An id that nobody has used, in a run. */
  predicate Unused(s: State, id: string) {
    id != "" && id !in s.authors
  }

  lemma {:induction false} ExecAppend(s: State, a: seq<Step>, b: seq<Step>)
    ensures Exec(s, a + b) == Exec(Exec(s, a), b)
    decreases |a|
  {
    if a == [] {
      assert a + b == b;
    } else {
      assert (a + b)[1..] == a[1..] + b;
      ExecAppend(Next(s, a[0]), a[1..], b);
    }
  }

  /** A run goes on with one step at a time. */
  lemma ExecOneMore(s: State, steps: seq<Step>, step: Step)
    ensures Exec(s, []) == s && Exec(s, steps + [step]) == Next(Exec(s, steps), step)
  {
    ExecAppend(s, steps, [step]);
    assert [step][1..] == [];
  }

  lemma UnusedIsNotHeld(s: State, p: Peer, id: string)
    requires SideInv(s, p) && id !in s.authors
    ensures FindIndex(At(s, p).list, id) < 0
  {
  }

  lemma HeldAt(list: seq<Msg>, i: nat)
    requires DistinctIds(list) && i < |list|
    ensures FindIndex(list, list[i].messageId) == i
  {
  }

  // ---------------------------------------------------------------- one local operation

  /** Sending puts the typed text, not yet acknowledged, at the end of one's own list and on the way to the peer. */
  lemma SendEffect(steps: seq<Step>, p: Peer, id: string, body: string)
    requires Unused(Exec(INIT, steps), id)
    ensures
      var s := Exec(INIT, steps);
      var t := Next(s, Send(p, id, body));
      var m := Msg(id, p, body, false, None, None, None);
      && At(t, p).list == At(s, p).list + [m] && At(t, p).inbox == At(s, p).inbox
      && At(t, Other(p)).list == At(s, Other(p)).list && At(t, Other(p)).inbox == At(s, Other(p)).inbox + [m]
      && t.authors == s.authors[id := p]
  {
    ExecInv(INIT, steps);
    assert SideInv(Exec(INIT, steps), p);
    UnusedIsNotHeld(Exec(INIT, steps), p, id);
  }

  /** Amending an own message changes its text and nothing else of it, and no other message. */
  lemma AmendEffect(steps: seq<Step>, p: Peer, id: string, i: nat, body: string)
    requires Unused(Exec(INIT, steps), id)
    requires i < |At(Exec(INIT, steps), p).list| && At(Exec(INIT, steps), p).list[i].from == p
    ensures
      var s := Exec(INIT, steps);
      var shown := At(s, p).list[i];
      var t := Next(s, AmendOwn(p, id, shown.messageId, body));
      var amended := Msg(shown.messageId, p, body, shown.acked, shown.amend, shown.delete, shown.ack);
      && At(t, p).list == At(s, p).list[i := amended] && At(t, p).inbox == At(s, p).inbox
      && At(t, Other(p)).list == At(s, Other(p)).list
      && At(t, Other(p)).inbox
         == At(s, Other(p)).inbox + [Msg(id, p, "", false, Some(Amend(shown.messageId, amended)), None, None)]
  {
    ExecInv(INIT, steps);
    var s := Exec(INIT, steps);
    assert SideInv(s, p);
    AmendHere(s, p, id, i, body);
  }

  lemma AmendHere(s: State, p: Peer, id: string, i: nat, body: string)
    requires Unused(s, id) && ListOk(At(s, p).list, s.authors)
    requires i < |At(s, p).list| && At(s, p).list[i].from == p
    ensures
      var shown := At(s, p).list[i];
      var step := AmendOwn(p, id, shown.messageId, body);
      && Enabled(s, step)
      && RequestOf(s, step)
         == Msg(id, p, "", false, Some(Amend(shown.messageId, shown.(body := body))), None, None)
      && Update(At(s, p).list, RequestOf(s, step)) == At(s, p).list[i := shown.(body := body)]
  {
    HeldAt(At(s, p).list, i);
    assert At(s, p).list[i] in At(s, p).list;
  }

  /** Deleting a message takes it, and nothing else, from one's own list. */
  lemma DeleteEffect(steps: seq<Step>, p: Peer, id: string, i: nat)
    requires Unused(Exec(INIT, steps), id) && i < |At(Exec(INIT, steps), p).list|
    ensures
      var s := Exec(INIT, steps);
      var target := At(s, p).list[i].messageId;
      var t := Next(s, DeleteHeld(p, id, target));
      && At(t, p).list == At(s, p).list[..i] + At(s, p).list[i + 1..] && At(t, p).inbox == At(s, p).inbox
      && At(t, Other(p)).list == At(s, Other(p)).list
      && At(t, Other(p)).inbox == At(s, Other(p)).inbox + [Msg(id, p, "", false, None, Some(target), None)]
  {
    ExecInv(INIT, steps);
    var s := Exec(INIT, steps);
    assert SideInv(s, p);
    DeleteHere(s, p, id, i);
  }

  lemma DeleteHere(s: State, p: Peer, id: string, i: nat)
    requires Unused(s, id) && ListOk(At(s, p).list, s.authors) && i < |At(s, p).list|
    ensures
      var m := Msg(id, p, "", false, None, Some(At(s, p).list[i].messageId), None);
      && Enabled(s, DeleteHeld(p, id, At(s, p).list[i].messageId))
      && RequestOf(s, DeleteHeld(p, id, At(s, p).list[i].messageId)) == m
      && Update(At(s, p).list, m) == At(s, p).list[..i] + At(s, p).list[i + 1..]
  {
    HeldAt(At(s, p).list, i);
    assert At(s, p).list[i] in At(s, p).list;
    WithoutIsRemoval(At(s, p).list, i);
  }

  lemma {:induction false} WithoutIsRemoval(list: seq<Msg>, i: nat)
    requires DistinctIds(list) && i < |list|
    ensures Without(list, list[i].messageId) == list[..i] + list[i + 1..]
    decreases i
  {
    if i == 0 {
      WithoutOther(list[1..], list[0].messageId);
    } else {
      assert list[1..][i - 1] == list[i];
      WithoutIsRemoval(list[1..], i - 1);
      assert list[1..][..i - 1] == list[1..i] && list[1..][i..] == list[i + 1..];
      assert list[..i] == [list[0]] + list[1..i];
    }
  }

  lemma {:induction false} WithoutOther(list: seq<Msg>, id: string)
    requires forall m :: m in list ==> m.messageId != id
    ensures Without(list, id) == list
  {
    if list == [] {
    } else {
      assert list[0] in list;
      WithoutOther(list[1..], id);
    }
  }

  // ---------------------------------------------------------------- one delivery

  /** An acknowledgement marks the messages with its id, and nothing else happens. */
  lemma AckEffect(steps: seq<Step>, p: Peer, ackId: string)
    requires At(Exec(INIT, steps), p).inbox != [] && At(Exec(INIT, steps), p).inbox[0].ack.Some?
    ensures
      var s := Exec(INIT, steps);
      var t, list, id := Next(s, Deliver(p, ackId)), At(s, p).list, At(s, p).inbox[0].ack.value;
      && |At(t, p).list| == |list|
      && (forall i :: 0 <= i < |list| ==>
            At(t, p).list[i] == if list[i].messageId == id then list[i].(acked := true) else list[i])
      && At(t, p).inbox == At(s, p).inbox[1..] && At(t, Other(p)) == At(s, Other(p))
  {
  }

  /** What a request does to a list: it adds a message at the end, replaces one in its place, or takes one out. */
  ghost predicate Changes(list: seq<Msg>, later: seq<Msg>, m: Msg) {
    if m.amend.Some? && m.amend.value.messageId != "" then
      && (forall i :: 0 <= i < |list| && list[i].messageId == m.amend.value.messageId ==>
            later == list[i := m.amend.value.newMessage])
      && ((forall x :: x in list ==> x.messageId != m.amend.value.messageId) ==> later == list)
    else if m.delete.Some? && m.delete.value != "" then
      && (forall i :: 0 <= i < |list| && list[i].messageId == m.delete.value ==>
            later == list[..i] + list[i + 1..])
      && ((forall x :: x in list ==> x.messageId != m.delete.value) ==> later == list)
    else later == list + [m]
  }

  lemma UpdateChanges(list: seq<Msg>, m: Msg)
    requires DistinctIds(list) && Fits(list, m)
    ensures Changes(list, Update(list, m), m)
  {
    if IsAmend(m) {
      AmendOfList(list, m);
    } else if IsDelete(m) {
      DeleteOfList(list, m);
    }
  }

  /** A request changes the list as its operation did at the sender, and is acknowledged with its id. */
  lemma RequestEffect(steps: seq<Step>, p: Peer, ackId: string)
    requires At(Exec(INIT, steps), p).inbox != [] && At(Exec(INIT, steps), p).inbox[0].ack.None?
    ensures
      var s := Exec(INIT, steps);
      var t, m := Next(s, Deliver(p, ackId)), At(s, p).inbox[0];
      && Changes(At(s, p).list, At(t, p).list, m)
      && At(t, p).inbox == At(s, p).inbox[1..] && At(t, Other(p)).list == At(s, Other(p)).list
      && At(t, Other(p)).inbox
         == At(s, Other(p)).inbox + [Msg(ackId, p, "", false, None, None, Some(m.messageId))]
  {
    ExecInv(INIT, steps);
    RequestDelivered(Exec(INIT, steps), p, ackId);
    ListChanges(Exec(INIT, steps), p);
  }

  lemma ListChanges(s: State, p: Peer)
    requires Inv(s) && At(s, p).inbox != [] && At(s, p).inbox[0].ack.None?
    ensures Changes(At(s, p).list, Update(At(s, p).list, At(s, p).inbox[0]), At(s, p).inbox[0])
  {
    assert SideInv(s, p);
    ArrivalFits(s, p);
    UpdateChanges(At(s, p).list, At(s, p).inbox[0]);
  }

  lemma RequestDelivered(s: State, p: Peer, ackId: string)
    requires At(s, p).inbox != [] && At(s, p).inbox[0].ack.None?
    ensures
      var t, m := Next(s, Deliver(p, ackId)), At(s, p).inbox[0];
      && At(t, p).list == Update(At(s, p).list, m) && At(t, p).inbox == At(s, p).inbox[1..]
      && At(t, Other(p)).list == At(s, Other(p)).list
      && At(t, Other(p)).inbox
         == At(s, Other(p)).inbox + [Msg(ackId, p, "", false, None, None, Some(m.messageId))]
  {
  }

  lemma AmendOfList(list: seq<Msg>, m: Msg)
    requires DistinctIds(list) && IsAmend(m)
    ensures forall i :: 0 <= i < |list| && list[i].messageId == m.amend.value.messageId ==>
              Update(list, m) == list[i := m.amend.value.newMessage]
    ensures (forall x :: x in list ==> x.messageId != m.amend.value.messageId) ==> Update(list, m) == list
  {
    var j := FindIndex(list, m.amend.value.messageId);
    assert j >= 0 ==> list[j] in list;
  }

  lemma DeleteOfList(list: seq<Msg>, m: Msg)
    requires DistinctIds(list) && IsDelete(m)
    ensures forall i :: 0 <= i < |list| && list[i].messageId == m.delete.value ==>
              Update(list, m) == list[..i] + list[i + 1..]
    ensures (forall x :: x in list ==> x.messageId != m.delete.value) ==> Update(list, m) == list
  {
    forall i | 0 <= i < |list| && list[i].messageId == m.delete.value
      ensures Update(list, m) == list[..i] + list[i + 1..]
    {
      WithoutIsRemoval(list, i);
    }
    if forall x :: x in list ==> x.messageId != m.delete.value {
      WithoutOther(list, m.delete.value);
    }
  }

  // ---------------------------------------------------------------- in the end

  /** The messages a peer will hold, by id, when everything on its way has arrived. */
  function Due(s: State, p: Peer): View {
    Settled(ViewOf(At(s, p).list), At(s, p).inbox)
  }

  lemma LocalDue(s: State, step: Step, q: Peer)
    requires Inv(s) && Enabled(s, step) && !step.Deliver?
    ensures Due(Next(s, step), q) == UpdateView(Due(s, q), RequestOf(s, step))
  {
    var m, p := RequestOf(s, step), step.p;
    RequestFits(s, step);
    if q == p {
      UpdateMeaning(At(s, p).list, m);
      SettledCommutes(ViewOf(At(s, p).list), At(s, p).inbox, m);
    } else {
      SettledAppend(ViewOf(At(s, q).list), At(s, q).inbox, m);
    }
  }

  lemma DeliverDue(s: State, p: Peer, ackId: string, q: Peer)
    requires Inv(s) && At(s, p).inbox != []
    ensures Due(DoDeliver(s, p, ackId), q) == Due(s, q)
  {
    var me, m := At(s, p), At(s, p).inbox[0];
    if q != p {
      if m.ack.None? {
        SettledAppend(ViewOf(At(s, q).list), At(s, q).inbox, Msg(ackId, p, "", false, None, None, Some(m.messageId)));
      }
    } else if m.ack.Some? {
      ViewOfMarked(me.list, m.ack.value);
    } else {
      assert SideInv(s, p);
      ArrivalFits(s, p);
      UpdateMeaning(me.list, m);
    }
  }

  /** Nobody amends or deletes the message with this id. */
  predicate Spares(steps: seq<Step>, id: string) {
    forall step :: step in steps ==> (step.AmendOwn? || step.DeleteHeld? ==> step.target != id)
  }

  ghost predicate SameAt(v: View, w: View, id: string) {
    if id in v then id in w && w[id] == v[id] else id !in w
  }

  lemma DueStep(s: State, step: Step, q: Peer)
    requires Inv(s)
    ensures Due(Next(s, step), q)
         == if Enabled(s, step) && !step.Deliver? then UpdateView(Due(s, q), RequestOf(s, step)) else Due(s, q)
  {
    if Enabled(s, step) {
      if step.Deliver? {
        DeliverDue(s, step.p, step.ackId, q);
      } else {
        LocalDue(s, step, q);
      }
    }
  }

  /** A request made now concerns the message it targets, or a message that is new. */
  lemma RequestTouches(s: State, step: Step, v: View, id: string)
    requires Enabled(s, step) && !step.Deliver? && id in s.authors
    ensures Spares([step], id) ==> SameAt(v, UpdateView(v, RequestOf(s, step)), id)
    ensures id !in v ==> id !in UpdateView(v, RequestOf(s, step))
  {
    assert step in [step];
  }

  lemma SparedByOne(s: State, step: Step, q: Peer, id: string)
    requires Inv(s) && id in s.authors && Spares([step], id)
    ensures SameAt(Due(s, q), Due(Next(s, step), q), id) && id in Next(s, step).authors
  {
    DueStep(s, step, q);
    NextKeepsAuthors(s, step, id);
    if Enabled(s, step) && !step.Deliver? {
      RequestTouches(s, step, Due(s, q), id);
    }
  }

  lemma {:induction false} SparedByAll(s: State, steps: seq<Step>, q: Peer, id: string)
    requires Inv(s) && id in s.authors && Spares(steps, id)
    ensures SameAt(Due(s, q), Due(Exec(s, steps), q), id)
    decreases |steps|
  {
    if steps == [] {
    } else {
      assert steps[0] in steps && Spares([steps[0]], id);
      assert forall step :: step in steps[1..] ==> step in steps;
      SparedByOne(s, steps[0], q, id);
      NextInv(s, steps[0]);
      SparedByAll(Next(s, steps[0]), steps[1..], q, id);
    }
  }

  /** What is due is held, once all requests have been delivered. */
  lemma DueIsHeld(s: State, q: Peer, id: string)
    requires RequestsDelivered(s)
    ensures id in Due(s, q) <==> exists i :: 0 <= i < |At(s, q).list| && At(s, q).list[i].messageId == id
    ensures id in Due(s, q) ==> exists i :: 0 <= i < |At(s, q).list| && Erase(At(s, q).list[i]) == Due(s, q)[id]
  {
    OnlyAcksSettle(ViewOf(At(s, q).list), At(s, q).inbox);
    ViewLookup(At(s, q).list, id);
  }

  /** A peer holds this message, acknowledged or not. */
  ghost predicate HasMessage(list: seq<Msg>, id: string, from: Peer, body: string) {
    exists i :: 0 <= i < |list| && list[i].messageId == id && list[i].from == from && list[i].body == body
  }

  /** After a step, and whatever comes next that spares the message. */
  function Later(before: seq<Step>, step: Step, after: seq<Step>): State {
    Exec(INIT, before + [step] + after)
  }

  lemma LaterIs(before: seq<Step>, step: Step, after: seq<Step>)
    ensures Later(before, step, after) == Exec(Next(Exec(INIT, before), step), after)
    ensures Inv(Exec(INIT, before)) && Inv(Next(Exec(INIT, before), step))
  {
    ExecAppend(INIT, before + [step], after);
    ExecOneMore(INIT, before, step);
    ExecInv(INIT, before);
    NextInv(Exec(INIT, before), step);
  }

  lemma HeldFromDue(s: State, q: Peer, id: string, m: Msg)
    requires RequestsDelivered(s) && id in Due(s, q) && Due(s, q)[id] == Erase(m) && m.messageId == id
    ensures HasMessage(At(s, q).list, id, m.from, m.body)
  {
    DueIsHeld(s, q, id);
    var i :| 0 <= i < |At(s, q).list| && Erase(At(s, q).list[i]) == Due(s, q)[id];
    assert At(s, q).list[i].messageId == id && At(s, q).list[i].from == m.from && At(s, q).list[i].body == m.body;
  }

  lemma SendIsDue(s: State, p: Peer, id: string, body: string, q: Peer)
    requires Inv(s) && Unused(s, id)
    ensures id in Due(Next(s, Send(p, id, body)), q)
    ensures Due(Next(s, Send(p, id, body)), q)[id] == Erase(Msg(id, p, body, false, None, None, None))
  {
    LocalDue(s, Send(p, id, body), q);
    NotYetDue(s, q, id);
  }

  /** Only ids that have been used are due. */
  lemma NotYetDue(s: State, q: Peer, id: string)
    requires Inv(s) && id !in s.authors
    ensures id !in Due(s, q)
  {
    assert SideInv(s, q);
    if id in ViewOf(At(s, q).list) {
      ViewKeysAreAuthored(At(s, q).list, s.authors, id);
    }
    forall x | x in At(s, q).inbox && x.ack.None?
      ensures RequestOk(x, Other(q), s.authors) && x.messageId != id
    {
      assert RequestOk(x, Other(q), s.authors);
    }
    SettledKeys(ViewOf(At(s, q).list), At(s, q).inbox, id);
  }

  lemma {:induction false} SettledKeys(v: View, q: seq<Msg>, id: string)
    requires id !in v && forall x :: x in q && x.ack.None? ==> x.messageId != id
    ensures id !in Settled(v, q)
    decreases |q|
  {
    if q == [] {
    } else {
      assert q[0] in q;
      SettledKeys(if q[0].ack.Some? then v else UpdateView(v, q[0]), q[1..], id);
    }
  }

  /**
   * A message sent and then neither amended nor deleted is on both lists with
   * its text, once all requests have been delivered.
   */
  lemma SentArrives(before: seq<Step>, p: Peer, id: string, body: string, after: seq<Step>, q: Peer)
    requires Unused(Exec(INIT, before), id) && Spares(after, id)
    requires RequestsDelivered(Later(before, Send(p, id, body), after))
    ensures HasMessage(At(Later(before, Send(p, id, body), after), q).list, id, p, body)
  {
    var s := Exec(INIT, before);
    var t := Next(s, Send(p, id, body));
    LaterIs(before, Send(p, id, body), after);
    SendIsDue(s, p, id, body, q);
    SendEffect(before, p, id, body);
    SparedByAll(t, after, q, id);
    HeldFromDue(Exec(t, after), q, id, Msg(id, p, body, false, None, None, None));
  }

  lemma AmendIsDue(s: State, p: Peer, id: string, i: nat, body: string, q: Peer)
    requires Inv(s) && Unused(s, id) && i < |At(s, p).list| && At(s, p).list[i].from == p
    ensures
      var target := At(s, p).list[i].messageId;
      var due := Due(Next(s, AmendOwn(p, id, target, body)), q);
      target in Due(s, q) ==> target in due && due[target] == Erase(At(s, p).list[i].(body := body))
  {
    assert SideInv(s, p);
    HeldAt(At(s, p).list, i);
    assert At(s, p).list[i] in At(s, p).list;
    LocalDue(s, AmendOwn(p, id, At(s, p).list[i].messageId, body), q);
  }

  /**
   * The text of the last amend is on both lists once all requests have been
   * delivered, unless somebody has deleted the message.
   */
  lemma AmendedArrives(before: seq<Step>, p: Peer, id: string, i: nat, body: string, after: seq<Step>, q: Peer)
    requires Unused(Exec(INIT, before), id) && i < |At(Exec(INIT, before), p).list|
    requires At(Exec(INIT, before), p).list[i].from == p
    requires Spares(after, At(Exec(INIT, before), p).list[i].messageId)
    requires
      var target := At(Exec(INIT, before), p).list[i].messageId;
      RequestsDelivered(Later(before, AmendOwn(p, id, target, body), after))
    ensures
      var target := At(Exec(INIT, before), p).list[i].messageId;
      var t := Later(before, AmendOwn(p, id, target, body), after);
      || HasMessage(At(t, q).list, target, p, body)
      || (target !in Due(Exec(INIT, before), q) && forall m :: m in At(t, q).list ==> m.messageId != target)
  {
    var s := Exec(INIT, before);
    var shown := At(s, p).list[i];
    var target := shown.messageId;
    var step := AmendOwn(p, id, target, body);
    var t := Next(s, step);
    LaterIs(before, step, after);
    assert SideInv(s, p) && shown in At(s, p).list;
    AmendIsDue(s, p, id, i, body, q);
    NextKeepsAuthors(s, step, target);
    SparedByAll(t, after, q, target);
    if target in Due(s, q) {
      HeldFromDue(Exec(t, after), q, target, shown.(body := body));
    } else {
      AmendAddsNothing(s, p, id, i, body, q);
      DueIsHeld(Exec(t, after), q, target);
    }
  }

  lemma AmendAddsNothing(s: State, p: Peer, id: string, i: nat, body: string, q: Peer)
    requires Inv(s) && Unused(s, id) && i < |At(s, p).list| && At(s, p).list[i].from == p
    requires At(s, p).list[i].messageId !in Due(s, q)
    ensures At(s, p).list[i].messageId !in Due(Next(s, AmendOwn(p, id, At(s, p).list[i].messageId, body)), q)
  {
    assert SideInv(s, p);
    HeldAt(At(s, p).list, i);
    assert At(s, p).list[i] in At(s, p).list;
    LocalDue(s, AmendOwn(p, id, At(s, p).list[i].messageId, body), q);
  }

  lemma NextKeepsAuthors(s: State, step: Step, id: string)
    requires id in s.authors
    ensures id in Next(s, step).authors
  {
  }

  /** A message deleted by either peer is on neither list once all requests have been delivered. */
  lemma DeletedStaysAway(before: seq<Step>, p: Peer, id: string, i: nat, after: seq<Step>, q: Peer)
    requires Unused(Exec(INIT, before), id) && i < |At(Exec(INIT, before), p).list|
    requires
      var target := At(Exec(INIT, before), p).list[i].messageId;
      RequestsDelivered(Later(before, DeleteHeld(p, id, target), after))
    ensures
      var target := At(Exec(INIT, before), p).list[i].messageId;
      forall m :: m in At(Later(before, DeleteHeld(p, id, target), after), q).list ==> m.messageId != target
  {
    var s := Exec(INIT, before);
    var target := At(s, p).list[i].messageId;
    var step := DeleteHeld(p, id, target);
    LaterIs(before, step, after);
    DeleteIsDue(s, p, id, i, q);
    GoneForGood(Next(s, step), after, q, target);
    DueIsHeld(Exec(Next(s, step), after), q, target);
  }

  lemma DeleteIsDue(s: State, p: Peer, id: string, i: nat, q: Peer)
    requires Inv(s) && Unused(s, id) && i < |At(s, p).list|
    ensures
      var target := At(s, p).list[i].messageId;
      var t := Next(s, DeleteHeld(p, id, target));
      target in t.authors && target !in Due(t, q)
  {
    assert SideInv(s, p) && At(s, p).list[i] in At(s, p).list;
    DeleteHere(s, p, id, i);
    DueStep(s, DeleteHeld(p, id, At(s, p).list[i].messageId), q);
  }

  /** An id that was used and is not due never comes back. */
  lemma {:induction false} GoneForGood(s: State, steps: seq<Step>, q: Peer, id: string)
    requires Inv(s) && id in s.authors && id !in Due(s, q)
    ensures id !in Due(Exec(s, steps), q)
    decreases |steps|
  {
    if steps == [] {
    } else {
      DueStep(s, steps[0], q);
      NextKeepsAuthors(s, steps[0], id);
      if Enabled(s, steps[0]) && !steps[0].Deliver? {
        RequestTouches(s, steps[0], Due(s, q), id);
      }
      NextInv(s, steps[0]);
      GoneForGood(Next(s, steps[0]), steps[1..], q, id);
    }
  }

  /** Once all requests have been delivered each message of one peer is, up to its acked flag, one of the other's. */
  lemma SameMessages(steps: seq<Step>, p: Peer, m: Msg)
    requires RequestsDelivered(Exec(INIT, steps)) && m in At(Exec(INIT, steps), p).list
    ensures exists n :: n in At(Exec(INIT, steps), Other(p)).list && n.(acked := m.acked) == m
  {
    var s := Exec(INIT, steps);
    ExecInv(INIT, steps);
    Convergence(steps);
    assert SideInv(s, p);
    var list, other := At(s, p).list, At(s, Other(p)).list;
    var i :| 0 <= i < |list| && list[i] == m;
    HeldAt(list, i);
    ViewLookup(list, m.messageId);
    ViewLookup(other, m.messageId);
    var n := other[FindIndex(other, m.messageId)];
    assert n in other && n.(acked := m.acked) == m;
  }

  // ---------------------------------------------------------------- a message that meets no other

  /**
   * From any reachable state with nothing on its way, a message that is sent,
   * delivered and acknowledged is last on both lists, and acknowledged on its
   * author's.
   */
  lemma UndisturbedMessageArrives(steps: seq<Step>, p: Peer, id: string, body: string, ackId: string, noId: string)
    requires Unused(Exec(INIT, steps), id)
    requires At(Exec(INIT, steps), p).inbox == [] && At(Exec(INIT, steps), Other(p)).inbox == []
    ensures
      var s := Exec(INIT, steps);
      var t := Next(Next(Next(s, Send(p, id, body)), Deliver(Other(p), ackId)), Deliver(p, noId));
      && |At(t, p).list| == |At(s, p).list| + 1
      && At(t, p).list[|At(s, p).list|] == Msg(id, p, body, true, None, None, None)
      && At(t, Other(p)).list == At(s, Other(p)).list + [Msg(id, p, body, false, None, None, None)]
      && At(t, p).inbox == [] && At(t, Other(p)).inbox == []
  {
    var s := Exec(INIT, steps);
    var one, two := steps + [Send(p, id, body)], steps + [Send(p, id, body)] + [Deliver(Other(p), ackId)];
    ExecOneMore(INIT, steps, Send(p, id, body));
    ExecOneMore(INIT, one, Deliver(Other(p), ackId));
    SendEffect(steps, p, id, body);
    RequestEffect(one, Other(p), ackId);
    AckEffect(two, p, noId);
  }
}
