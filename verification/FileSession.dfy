/**
 * Sending one file from end to end (webrtc-web/app/page.tsx): the message
 * that announces it travels among the other messages of a conversation, the
 * transfer starts when the acknowledgement with its id comes back, and the
 * receiver records on the message what the file channel carried.
 */
module FileSession {
  import opened Wrappers
  import opened Bytes
  import Chat = ChatReplica
  import Transfer = FileTransfer
  import Status = FileStatus

  /** Who sends which file, the id of its announcement, and the channel it goes through. */
  datatype Config = Config(sender: Chat.Peer, id: string, dcId: string, name: string, mime: string, file: seq<byte>)

  datatype Closing = NotClosed | ChannelLost | ClosedBySender

  /** The conversation, the transfer, and the receiver's messages and running transfers. */
  datatype State = State(chat: Chat.State, transfer: Transfer.State, receiver: Status.Peer, closing: Closing)

  function Init(c: Config): State {
    State(Chat.INIT, Transfer.Init(c.file), Status.Peer([], map[]), NotClosed)
  }

  datatype Step =
    | Talk(talk: Chat.Step)                           // any other message, and every delivery
    | Announce(body: string)                          // the channel has opened: sendMsg
    | Move(move: Transfer.Step)                       // a step of the transfer
    | Elsewhere(e: Status.Event)                      // other messages and channels at the receiver
    | ReceiverCloses(error: Option<string>)           // the receiver's close or error handler

  function Receiver(c: Config): Chat.Peer {
    Chat.Other(c.sender)
  }

  /** An event at the receiver that is about other messages and other channels. */
  predicate Unrelated(c: Config, e: Status.Event) {
    match e
    case Announced(m) => m.messageId != c.id
    case Amended(id, m) => id != c.id && m.messageId == id
    case Deleted(id) => id != c.id
    case Opened(d) => d != c.dcId
    case Data(d, _, _) => d != c.dcId
    case Closed(d, _, _) => d != c.dcId
  }

  predicate AtReceiver(step: Transfer.Step) {
    step.ReceiverOpens? || step.DeliverSlice?
  }

  predicate Enabled(c: Config, s: State, step: Step) {
    match step
    case Talk(t) =>
      && Chat.Enabled(s.chat, t)
      && (!t.Deliver? ==> t.id != c.id) && (t.AmendOwn? ==> t.target != c.id)
    case Announce(body) => Chat.Enabled(s.chat, Chat.Send(c.sender, c.id, body))
    case Move(t) =>
      && !t.Start? && Transfer.Enabled(s.transfer, t)
      && (AtReceiver(t) ==> s.closing.NotClosed?)
      && (t.AckFails? ==> c.id in s.chat.authors)
    case Elsewhere(e) => Unrelated(c, e)
    case ReceiverCloses(_) => s.closing.NotClosed?
  }

  /** The message as announced. */
  function FileMessage(c: Config): Status.Message {
    Status.Message(c.id, Some(Status.FileInfo(c.name, c.mime, Some(c.dcId), None, None, [], None)))
  }

  /** What a request delivered to the receiver, or made by it, does to the file message. */
  function Handled(c: Config, p: Status.Peer, m: Chat.Msg): Status.Peer {
    if Chat.IsDelete(m) && m.delete.value == c.id then Status.Delete(p, c.id)
    else if Chat.IsAddition(m) && m.messageId == c.id then Status.Announce(p, FileMessage(c))
    else p
  }

  /** listenForAck: of all the messages that arrive only the acknowledgement with the id counts. */
  function Heard(c: Config, t: Transfer.State, p: Chat.Peer, m: Chat.Msg): Transfer.State {
    if p == c.sender && m.ack == Some(c.id) then Transfer.Next(t, Transfer.Start) else t
  }

  function DoTalk(c: Config, s: State, t: Chat.Step): State
    requires Chat.Enabled(s.chat, t)
  {
    var chat := Chat.Next(s.chat, t);
    if t.Deliver? then
      var m := Chat.At(s.chat, t.p).inbox[0];
      s.(chat := chat, transfer := Heard(c, s.transfer, t.p, m),
        receiver := if t.p == Receiver(c) && m.ack.None? then Handled(c, s.receiver, m) else s.receiver)
    else
      s.(chat := chat,
        receiver := if t.p == Receiver(c) then Handled(c, s.receiver, Chat.RequestOf(s.chat, t)) else s.receiver)
  }

  /** The event a step of the transfer is to the receiver. */
  function Recorded(c: Config, s: State, t: Transfer.Step): Status.Peer
    requires Transfer.Enabled(s.transfer, t)
  {
    match t
    case ReceiverOpens => Status.Apply(s.receiver, Status.Opened(c.dcId))
    case DeliverSlice =>
      Status.Apply(s.receiver, Status.Data(c.dcId, Status.ArrayBufferType, Status.Buffer(s.transfer.slices[0])))
    case _ => s.receiver
  }

  function Do(c: Config, s: State, step: Step): State
    requires Enabled(c, s, step)
  {
    match step
    case Talk(t) => DoTalk(c, s, t)
    case Announce(body) => DoTalk(c, s, Chat.Send(c.sender, c.id, body))
    case Move(t) => s.(transfer := Transfer.Next(s.transfer, t), receiver := Recorded(c, s, t))
    case Elsewhere(e) => s.(receiver := Status.Apply(s.receiver, e))
    case ReceiverCloses(error) =>
      s.(receiver := Status.CloseDC(s.receiver, c.dcId, error, None),
        closing := if s.transfer.closeCalls > 0 then ClosedBySender else ChannelLost)
  }

  function Next(c: Config, s: State, step: Step): State {
    if Enabled(c, s, step) then Do(c, s, step) else s
  }

  function Exec(c: Config, s: State, steps: seq<Step>): State
    decreases |steps|
  {
    if steps == [] then s else Exec(c, Next(c, s, steps[0]), steps[1..])
  }

  // ---------------------------------------------------------------- the parts

  /** The transfer of a session is a run of the transfer alone, with its start somewhere. */
  lemma {:induction false} TransferOfSession(c: Config, s: State, steps: seq<Step>) returns (ts: seq<Transfer.Step>)
    ensures Transfer.Exec(s.transfer, ts) == Exec(c, s, steps).transfer
    decreases |steps|
  {
    if steps == [] {
      ts := [];
    } else {
      var t := Next(c, s, steps[0]);
      var rest := TransferOfSession(c, t, steps[1..]);
      if t.transfer == s.transfer {
        ts := rest;
      } else {
        ts := [if steps[0].Move? then steps[0].move else Transfer.Start] + rest;
        assert ts[1..] == rest;
      }
    }
  }

  /** The conversation of a session is a run of the conversation alone. */
  lemma {:induction false} ChatOfSession(c: Config, s: State, steps: seq<Step>) returns (ts: seq<Chat.Step>)
    ensures Chat.Exec(s.chat, ts) == Exec(c, s, steps).chat
    decreases |steps|
  {
    if steps == [] {
      ts := [];
    } else {
      var t := Next(c, s, steps[0]);
      var rest := ChatOfSession(c, t, steps[1..]);
      if t.chat == s.chat {
        ts := rest;
      } else {
        ts := [if steps[0].Talk? then steps[0].talk else Chat.Send(c.sender, c.id, steps[0].body)] + rest;
        assert ts[1..] == rest;
      }
    }
  }

  ghost predicate ChatPart(c: Config, chat: Chat.State) {
    Chat.Inv(chat) && Chat.AppliedOnce(chat, Receiver(c))
  }

  ghost predicate TransferPart(c: Config, t: Transfer.State) {
    Transfer.Inv(t) && t.file == c.file
  }

  ghost predicate PartsInv(c: Config, s: State) {
    ChatPart(c, s.chat) && TransferPart(c, s.transfer)
  }

  lemma ChatPartStep(c: Config, chat: Chat.State, t: Chat.Step)
    requires ChatPart(c, chat)
    ensures ChatPart(c, Chat.Next(chat, t))
  {
    Chat.NextInv(chat, t);
    Chat.AppliedOnceStep(chat, t, Receiver(c));
  }

  lemma TransferPartStep(c: Config, t: Transfer.State, step: Transfer.Step)
    requires TransferPart(c, t)
    ensures TransferPart(c, Transfer.Next(t, step))
  {
    Transfer.NextInv(t, step);
  }

  lemma TalkParts(c: Config, s: State, t: Chat.Step)
    requires PartsInv(c, s) && Chat.Enabled(s.chat, t)
    ensures PartsInv(c, DoTalk(c, s, t))
  {
    ChatPartStep(c, s.chat, t);
    TransferPartStep(c, s.transfer, Transfer.Start);
  }

  lemma MoveParts(c: Config, s: State, t: Transfer.Step)
    requires PartsInv(c, s) && Enabled(c, s, Move(t))
    ensures PartsInv(c, Do(c, s, Move(t)))
  {
    TransferPartStep(c, s.transfer, t);
  }

  lemma PartsStep(c: Config, s: State, step: Step)
    requires PartsInv(c, s) && Enabled(c, s, step)
    ensures PartsInv(c, Do(c, s, step))
  {
    match step
    case Talk(t) => TalkParts(c, s, t);
    case Announce(body) => TalkParts(c, s, Chat.Send(c.sender, c.id, body));
    case Move(t) => MoveParts(c, s, t);
    case _ =>
  }

  // ---------------------------------------------------------------- the start

  ghost predicate Applied(c: Config, s: State) {
    c.id in Chat.At(s.chat, Receiver(c)).applied
  }

  /** The transfer waits for as long as its acknowledgement is due, and has started only after it came. */
  ghost predicate StartInv(c: Config, s: State) {
    && (s.transfer.phase.Transmitting? ==> Applied(c, s))
    && (c.id in s.chat.authors && s.transfer.phase.Waiting? ==>
          Chat.Awaited(Chat.At(s.chat, Receiver(c)).inbox, Chat.At(s.chat, c.sender).inbox, c.id))
  }

  /** What a delivery does to the two queues. */
  lemma DeliveryQueues(s: Chat.State, p: Chat.Peer, ackId: string)
    requires Chat.At(s, p).inbox != []
    ensures
      var t, m := Chat.DoDeliver(s, p, ackId), Chat.At(s, p).inbox[0];
      && Chat.At(s, p).inbox == [m] + Chat.At(t, p).inbox
      && Chat.At(t, Chat.Other(p)).inbox == Chat.At(s, Chat.Other(p)).inbox
           + (if m.ack.Some? then [] else [Chat.Msg(ackId, p, "", false, None, None, Some(m.messageId))])
      && t.authors == s.authors && Chat.At(s, p).applied <= Chat.At(t, p).applied
      && Chat.At(t, Chat.Other(p)).applied == Chat.At(s, Chat.Other(p)).applied
  {
  }

  lemma StillAwaited(c: Config, s: State, t: Chat.Step)
    requires Chat.Enabled(s.chat, t) && t.Deliver?
    requires Chat.Awaited(Chat.At(s.chat, Receiver(c)).inbox, Chat.At(s.chat, c.sender).inbox, c.id)
    requires !(t.p == c.sender && Chat.At(s.chat, t.p).inbox[0].ack == Some(c.id))
    ensures
      var u := Chat.Next(s.chat, t);
      Chat.Awaited(Chat.At(u, Receiver(c)).inbox, Chat.At(u, c.sender).inbox, c.id)
  {
    var u, m := Chat.Next(s.chat, t), Chat.At(s.chat, t.p).inbox[0];
    DeliveryQueues(s.chat, t.p, t.ackId);
    var mine, theirs := Chat.At(s.chat, c.sender).inbox, Chat.At(s.chat, Receiver(c)).inbox;
    var mineLater, theirsLater := Chat.At(u, c.sender).inbox, Chat.At(u, Receiver(c)).inbox;
    if t.p == Receiver(c) && m.ack.None? && m.messageId == c.id {
      var ack := Chat.Msg(t.ackId, t.p, "", false, None, None, Some(c.id));
      assert mineLater == mine + [ack];
      assert ack in mineLater;
    } else {
      Chat.AwaitedKept(theirs, mine, theirsLater, mineLater, c.id);
    }
  }

  lemma AckIsTrue(s: Chat.State, p: Chat.Peer)
    requires Chat.Inv(s) && Chat.At(s, p).inbox != [] && Chat.At(s, p).inbox[0].ack.Some?
    ensures Chat.At(s, p).inbox[0].ack.value in Chat.At(s, Chat.Other(p)).applied
  {
    assert Chat.SideInv(s, p);
    assert Chat.At(s, p).inbox[0] in Chat.At(s, p).inbox;
  }

  lemma AckStarts(c: Config, s: State, t: Chat.Step)
    requires StartInv(c, s) && Chat.Enabled(s.chat, t) && t.Deliver? && t.p == c.sender
    requires s.transfer.sent <= |s.transfer.file|
    requires Chat.At(s.chat, t.p).inbox[0].ack == Some(c.id) && Applied(c, s)
    ensures StartInv(c, DoTalk(c, s, t))
  {
    DeliveryQueues(s.chat, t.p, t.ackId);
  }

  lemma OtherDeliveryWaits(c: Config, s: State, t: Chat.Step)
    requires StartInv(c, s) && Chat.Enabled(s.chat, t) && t.Deliver?
    requires !(t.p == c.sender && Chat.At(s.chat, t.p).inbox[0].ack == Some(c.id))
    ensures StartInv(c, DoTalk(c, s, t))
  {
    DeliveryQueues(s.chat, t.p, t.ackId);
    if c.id in s.chat.authors && s.transfer.phase.Waiting? {
      StillAwaited(c, s, t);
    }
  }

  lemma DeliveryStarts(c: Config, s: State, t: Chat.Step)
    requires PartsInv(c, s) && StartInv(c, s) && Chat.Enabled(s.chat, t) && t.Deliver?
    ensures StartInv(c, DoTalk(c, s, t))
  {
    if t.p == c.sender && Chat.At(s.chat, t.p).inbox[0].ack == Some(c.id) {
      AckIsTrue(s.chat, t.p);
      AckStarts(c, s, t);
    } else {
      OtherDeliveryWaits(c, s, t);
    }
  }

  lemma RequestStarts(c: Config, s: State, t: Chat.Step)
    requires StartInv(c, s) && Chat.Enabled(s.chat, t) && !t.Deliver?
    requires t.id == c.id ==> t.Send? && t.p == c.sender
    ensures StartInv(c, DoTalk(c, s, t))
  {
    var u := DoTalk(c, s, t);
    if u.transfer.phase.Waiting? && c.id in u.chat.authors {
      if t.id == c.id {
        assert Chat.RequestOf(s.chat, t) in Chat.At(u.chat, Receiver(c)).inbox;
      } else {
        Chat.AwaitedKept(Chat.At(s.chat, Receiver(c)).inbox, Chat.At(s.chat, c.sender).inbox,
          Chat.At(u.chat, Receiver(c)).inbox, Chat.At(u.chat, c.sender).inbox, c.id);
      }
    }
  }

  /** Only Start begins to transmit, and nothing makes a transfer wait again. */
  lemma MovesDoNotStart(t: Transfer.State, step: Transfer.Step)
    requires !step.Start?
    ensures Transfer.Next(t, step).phase.Transmitting? ==> t.phase.Transmitting?
    ensures Transfer.Next(t, step).phase.Waiting? ==> t.phase.Waiting?
  {
  }

  lemma OtherStarts(c: Config, s: State, step: Step)
    requires StartInv(c, s) && Enabled(c, s, step) && (step.Move? || step.Elsewhere? || step.ReceiverCloses?)
    ensures StartInv(c, Do(c, s, step))
  {
    assert Do(c, s, step).chat == s.chat;
    if step.Move? {
      MovesDoNotStart(s.transfer, step.move);
    }
  }

  lemma StartStep(c: Config, s: State, step: Step)
    requires PartsInv(c, s) && StartInv(c, s) && Enabled(c, s, step)
    ensures StartInv(c, Do(c, s, step))
  {
    match step
    case Talk(t) =>
      if t.Deliver? {
        DeliveryStarts(c, s, t);
      } else {
        RequestStarts(c, s, t);
      }
    case Announce(body) => RequestStarts(c, s, Chat.Send(c.sender, c.id, body));
    case _ => OtherStarts(c, s, step);
  }

  // ---------------------------------------------------------------- the record

  /** The receiver's record of the channel is that of the transfer until the channel closes. */
  ghost predicate RecordInv(c: Config, s: State) {
    && (s.closing.NotClosed? ==> Status.EntryOf(s.receiver, c.dcId) == s.transfer.entry)
    && (s.closing.ClosedBySender? ==> Applied(c, s) && Concat(Transfer.Received(s.transfer)) == c.file)
  }

  lemma MoveRecords(c: Config, s: State, t: Transfer.Step)
    requires s.transfer.sent <= |s.transfer.file| && RecordInv(c, s) && Enabled(c, s, Move(t))
    ensures RecordInv(c, Do(c, s, Move(t)))
    ensures !s.closing.NotClosed? ==> Do(c, s, Move(t)).transfer.entry == s.transfer.entry
  {
  }

  lemma SenderHasClosed(c: Config, t: Transfer.State)
    requires TransferPart(c, t) && t.closeCalls > 0
    ensures t.phase.Transmitting? && Concat(Transfer.Received(t)) == c.file
  {
    Transfer.CloseMeansReceived(t);
  }

  lemma RecordStep(c: Config, s: State, step: Step)
    requires PartsInv(c, s) && StartInv(c, s) && RecordInv(c, s) && Enabled(c, s, step)
    ensures RecordInv(c, Do(c, s, step))
  {
    match step
    case Talk(t) => TalkKeepsRecord(c, s, t);
    case Announce(body) => TalkKeepsRecord(c, s, Chat.Send(c.sender, c.id, body));
    case Move(t) => MoveRecords(c, s, t);
    case Elsewhere(_) =>
    case ReceiverCloses(_) =>
      if s.transfer.closeCalls > 0 {
        SenderHasClosed(c, s.transfer);
      }
  }

  lemma StartKeepsEntry(t: Transfer.State)
    ensures Transfer.Next(t, Transfer.Start).entry == t.entry
  {
  }

  lemma TalkKeepsRecord(c: Config, s: State, t: Chat.Step)
    requires RecordInv(c, s) && Chat.Enabled(s.chat, t)
    ensures RecordInv(c, DoTalk(c, s, t))
  {
    StartKeepsEntry(s.transfer);
    if t.Deliver? {
      DeliveryQueues(s.chat, t.p, t.ackId);
    }
  }

  // ---------------------------------------------------------------- the message

  /** The message has closed with these chunks. */
  ghost predicate EndedWith(m: Status.Message, chunks: seq<seq<byte>>) {
    Status.Finished(m) && m.file.value.chunks == chunks
  }

  /** The file message is as announced while the channel is open, and has ended with what was received after. */
  ghost predicate MessageOk(c: Config, s: State, m: Status.Message) {
    if s.closing.NotClosed? then m == FileMessage(c)
    else EndedWith(m, Transfer.Received(s.transfer)) || (s.closing.ChannelLost? && m == FileMessage(c))
  }

  ghost predicate MessageInv(c: Config, s: State) {
    forall m :: m in s.receiver.messages && m.messageId == c.id ==> MessageOk(c, s, m)
  }

  /** The receiver has the file message if and only if its chat list shows one. */
  ghost predicate PresenceInv(c: Config, s: State) {
    Chat.Holds(s.chat, Receiver(c), c.id) <==> Status.HasMessage(s.receiver.messages, c.id)
  }

  lemma {:induction false} ReplacedPresence(ms: seq<Status.Message>, id: string, n: Status.Message, other: string)
    requires n.messageId == id
    ensures Status.HasMessage(Status.ReplaceFirst(ms, id, n), other) <==> Status.HasMessage(ms, other)
  {
    var after := Status.ReplaceFirst(ms, id, n);
    if ms == [] {
    } else {
      if ms[0].messageId == id {
        SameIds(ms, after, other);
      } else {
        ReplacedPresence(ms[1..], id, n, other);
        HeadOrTail(ms, other);
        HeadOrTail(after, other);
        assert after[1..] == Status.ReplaceFirst(ms[1..], id, n);
      }
    }
  }

  lemma HeadOrTail(ms: seq<Status.Message>, id: string)
    requires ms != []
    ensures Status.HasMessage(ms, id) <==> ms[0].messageId == id || Status.HasMessage(ms[1..], id)
  {
    if Status.HasMessage(ms[1..], id) {
      var i :| 0 <= i < |ms[1..]| && ms[1..][i].messageId == id;
      assert ms[i + 1].messageId == id;
    }
    if i :| 0 <= i < |ms| && ms[i].messageId == id && i > 0 {
      assert ms[1..][i - 1].messageId == id;
    }
  }

  lemma SameIds(a: seq<Status.Message>, b: seq<Status.Message>, id: string)
    requires |a| == |b| && forall i :: 0 <= i < |a| ==> a[i].messageId == b[i].messageId
    ensures Status.HasMessage(a, id) <==> Status.HasMessage(b, id)
  {
    if i :| 0 <= i < |a| && a[i].messageId == id {
      assert b[i].messageId == id;
    }
    if i :| 0 <= i < |b| && b[i].messageId == id {
      assert a[i].messageId == id;
    }
  }

  lemma MemberHas(ms: seq<Status.Message>, id: string)
    ensures Status.HasMessage(ms, id) <==> exists m :: m in ms && m.messageId == id
  {
    if m :| m in ms && m.messageId == id {
      var i :| 0 <= i < |ms| && ms[i] == m;
      assert ms[i].messageId == id;
    }
  }

  lemma DeletedPresence(p: Status.Peer, id: string, other: string)
    ensures Status.HasMessage(Status.Delete(p, id).messages, other)
            <==> Status.HasMessage(p.messages, other) && other != id
  {
    Status.WithoutMembers(p.messages, id);
    MemberHas(p.messages, other);
    MemberHas(Status.Delete(p, id).messages, other);
  }

  lemma AnnouncedPresence(p: Status.Peer, m: Status.Message, other: string)
    ensures Status.HasMessage(Status.Announce(p, m).messages, other)
            <==> Status.HasMessage(p.messages, other) || other == m.messageId
  {
    var after := Status.Announce(p, m).messages;
    if !Status.HasMessage(p.messages, m.messageId) {
      MemberHas(p.messages, other);
      MemberHas(after, other);
      assert m in after;
    }
  }

  /** Events elsewhere leave the file message, and what is recorded for its channel, alone. */
  lemma UnrelatedEvent(c: Config, p: Status.Peer, e: Status.Event)
    requires Unrelated(c, e)
    ensures Status.HasMessage(Status.Apply(p, e).messages, c.id) <==> Status.HasMessage(p.messages, c.id)
  {
    match e
    case Announced(m) => AnnouncedPresence(p, m, c.id);
    case Amended(id, m) => ReplacedPresence(p.messages, id, m, c.id);
    case Deleted(id) => DeletedPresence(p, id, c.id);
    case Closed(_, _, _) => SameIds(p.messages, Status.Apply(p, e).messages, c.id);
    case _ =>
  }

  /** A file message after an event elsewhere was there before, untouched, if it is open on its channel or has ended. */
  lemma UnrelatedMember(c: Config, p: Status.Peer, e: Status.Event, m: Status.Message)
    requires Unrelated(c, e) && m in Status.Apply(p, e).messages && m.messageId == c.id
    requires forall x :: x in p.messages && x.messageId == c.id ==> x == FileMessage(c) || Status.Finished(x)
    ensures m in p.messages
  {
    match e
    case Announced(n) =>
    case Amended(id, n) => Status.ReplacedMembers(p.messages, id, n);
    case Deleted(id) => Status.WithoutMembers(p.messages, id);
    case Closed(_, _, _) =>
      var i :| 0 <= i < |p.messages| && Status.Apply(p, e).messages[i] == m;
      assert p.messages[i] in p.messages;
    case _ =>
  }

  lemma HandledMember(c: Config, p: Status.Peer, m: Chat.Msg, x: Status.Message)
    requires x in Handled(c, p, m).messages
    ensures x in p.messages || (x == FileMessage(c) && Chat.IsAddition(m) && m.messageId == c.id)
  {
    Status.WithoutMembers(p.messages, c.id);
  }

  lemma HandledPresence(c: Config, p: Status.Peer, m: Chat.Msg)
    ensures Status.HasMessage(Handled(c, p, m).messages, c.id)
            <==> (Status.HasMessage(p.messages, c.id) && !(Chat.IsDelete(m) && m.delete.value == c.id))
                 || (Chat.IsAddition(m) && m.messageId == c.id)
  {
    DeletedPresence(p, c.id, c.id);
    AnnouncedPresence(p, FileMessage(c), c.id);
  }

  /** A request handled by the receiver keeps its list and its file message in step. */
  lemma RequestPresence(c: Config, list: seq<Chat.Msg>, p: Status.Peer, m: Chat.Msg)
    requires Chat.KeepsId(m)
    requires Chat.FindIndex(list, c.id) >= 0 <==> Status.HasMessage(p.messages, c.id)
    ensures Chat.FindIndex(Chat.Update(list, m), c.id) >= 0 <==> Status.HasMessage(Handled(c, p, m).messages, c.id)
  {
    Chat.UpdateHolds(list, m, c.id);
    HandledPresence(c, p, m);
  }

  lemma DeliveryPresence(c: Config, s: State, t: Chat.Step)
    requires PresenceInv(c, s) && Chat.Enabled(s.chat, t) && t.Deliver? && t.p == Receiver(c)
    requires Chat.SideInv(s.chat, t.p)
    ensures PresenceInv(c, DoTalk(c, s, t))
  {
    var me := Chat.At(s.chat, t.p);
    var m := me.inbox[0];
    if m.ack.Some? {
      Chat.MarkedHolds(me.list, m.ack.value, c.id);
    } else {
      Chat.ArrivalFits(s.chat, t.p);
      RequestPresence(c, me.list, s.receiver, m);
    }
  }

  lemma OwnRequestPresence(c: Config, s: State, t: Chat.Step)
    requires Chat.Inv(s.chat) && PresenceInv(c, s) && Chat.Enabled(s.chat, t) && !t.Deliver? && t.p == Receiver(c)
    ensures PresenceInv(c, DoTalk(c, s, t))
  {
    Chat.RequestFits(s.chat, t);
    RequestPresence(c, Chat.At(s.chat, t.p).list, s.receiver, Chat.RequestOf(s.chat, t));
  }

  lemma TalkPresence(c: Config, s: State, t: Chat.Step)
    requires Chat.Inv(s.chat) && PresenceInv(c, s) && Chat.Enabled(s.chat, t)
    ensures PresenceInv(c, DoTalk(c, s, t))
  {
    if t.p == Receiver(c) {
      assert Chat.SideInv(s.chat, t.p);
      if t.Deliver? {
        DeliveryPresence(c, s, t);
      } else {
        OwnRequestPresence(c, s, t);
      }
    }
  }

  /** Talk changes the file message only by its one announcement, which comes before the sender can close. */
  lemma TalkMessage(c: Config, s: State, t: Chat.Step)
    requires PartsInv(c, s) && RecordInv(c, s) && MessageInv(c, s) && Chat.Enabled(s.chat, t)
    requires !t.Deliver? && t.p == Receiver(c) ==> t.id != c.id
    ensures MessageInv(c, DoTalk(c, s, t))
  {
    var u := DoTalk(c, s, t);
    forall x | x in u.receiver.messages && x.messageId == c.id
      ensures MessageOk(c, u, x)
    {
      if x in s.receiver.messages {
        assert MessageOk(c, s, x);
      } else {
        var m := if t.Deliver? then Chat.At(s.chat, t.p).inbox[0] else Chat.RequestOf(s.chat, t);
        HandledMember(c, s.receiver, m, x);
        assert Chat.At(s.chat, t.p).inbox[0].messageId !in Chat.At(s.chat, t.p).applied;
      }
    }
  }

  lemma ClosedMember(p: Status.Peer, d: string, error: Option<string>, x: Status.Message)
    requires x in Status.CloseDC(p, d, error, None).messages
    ensures exists y :: y in p.messages && x == Status.CloseMessage(p, y, d, error, None)
  {
    var after := Status.CloseDC(p, d, error, None).messages;
    var i :| 0 <= i < |after| && after[i] == x;
    assert p.messages[i] in p.messages && x == Status.CloseMessage(p, p.messages[i], d, error, None);
  }

  lemma FileMessageCloses(c: Config, p: Status.Peer, y: Status.Message, error: Option<string>)
    requires y.messageId == c.id ==> y == FileMessage(c)
    ensures var x := Status.CloseMessage(p, y, c.dcId, error, None);
      x.messageId == c.id ==> EndedWith(x, Status.ReceivedChunks(p, c.dcId))
  {
  }

  lemma CloseMessages(c: Config, s: State, error: Option<string>)
    requires RecordInv(c, s) && MessageInv(c, s) && s.closing.NotClosed?
    ensures MessageInv(c, Do(c, s, ReceiverCloses(error)))
  {
    var u := Do(c, s, ReceiverCloses(error));
    forall x | x in u.receiver.messages && x.messageId == c.id
      ensures MessageOk(c, u, x)
    {
      ClosedMember(s.receiver, c.dcId, error, x);
      var y :| y in s.receiver.messages && x == Status.CloseMessage(s.receiver, y, c.dcId, error, None);
      assert y.messageId == c.id ==> MessageOk(c, s, y);
      FileMessageCloses(c, s.receiver, y, error);
    }
  }

  lemma PresenceStep(c: Config, s: State, step: Step)
    requires PartsInv(c, s) && PresenceInv(c, s) && Enabled(c, s, step)
    ensures PresenceInv(c, Do(c, s, step))
  {
    match step
    case Talk(t) => TalkPresence(c, s, t);
    case Announce(body) => TalkPresence(c, s, Chat.Send(c.sender, c.id, body));
    case Move(_) => assert Do(c, s, step).receiver.messages == s.receiver.messages;
    case Elsewhere(e) => UnrelatedEvent(c, s.receiver, e);
    case ReceiverCloses(_) => SameIds(s.receiver.messages, Do(c, s, step).receiver.messages, c.id);
  }

  lemma MessageStep(c: Config, s: State, step: Step)
    requires PartsInv(c, s) && RecordInv(c, s) && MessageInv(c, s) && Enabled(c, s, step)
    ensures MessageInv(c, Do(c, s, step))
  {
    match step
    case Talk(t) => TalkMessage(c, s, t);
    case Announce(body) => TalkMessage(c, s, Chat.Send(c.sender, c.id, body));
    case Move(t) => MoveMessages(c, s, t);
    case Elsewhere(e) => ElsewhereMessages(c, s, e);
    case ReceiverCloses(error) => CloseMessages(c, s, error);
  }

  lemma MoveMessages(c: Config, s: State, t: Transfer.Step)
    requires s.transfer.sent <= |s.transfer.file| && RecordInv(c, s) && MessageInv(c, s) && Enabled(c, s, Move(t))
    ensures MessageInv(c, Do(c, s, Move(t)))
  {
    var u := Do(c, s, Move(t));
    MoveRecords(c, s, t);
    assert u.receiver.messages == s.receiver.messages;
    forall m | m in u.receiver.messages && m.messageId == c.id
      ensures MessageOk(c, u, m)
    {
      assert MessageOk(c, s, m);
    }
  }

  lemma ElsewhereMessages(c: Config, s: State, e: Status.Event)
    requires MessageInv(c, s) && Unrelated(c, e)
    ensures MessageInv(c, Do(c, s, Elsewhere(e)))
  {
    var u := Do(c, s, Elsewhere(e));
    forall m | m in u.receiver.messages && m.messageId == c.id
      ensures MessageOk(c, u, m)
    {
      forall x | x in s.receiver.messages && x.messageId == c.id
        ensures x == FileMessage(c) || Status.Finished(x)
      {
        assert MessageOk(c, s, x);
      }
      UnrelatedMember(c, s.receiver, e, m);
      assert MessageOk(c, s, m);
    }
  }

  // ---------------------------------------------------------------- results about every run

  ghost predicate Inv(c: Config, s: State) {
    PartsInv(c, s) && StartInv(c, s) && RecordInv(c, s) && MessageInv(c, s) && PresenceInv(c, s)
  }

  lemma ChatStarts(c: Config)
    ensures ChatPart(c, Chat.INIT)
  {
  }

  lemma InitInv(c: Config)
    ensures Inv(c, Init(c))
  {
    ChatStarts(c);
    Transfer.InitInv(c.file);
    assert PartsInv(c, Init(c));
    assert StartInv(c, Init(c));
    assert RecordInv(c, Init(c));
    assert MessageInv(c, Init(c)) && PresenceInv(c, Init(c));
  }

  lemma {:induction false} ExecInv(c: Config, s: State, steps: seq<Step>)
    requires Inv(c, s)
    ensures Inv(c, Exec(c, s, steps))
    decreases |steps|
  {
    if steps == [] {
    } else {
      if Enabled(c, s, steps[0]) {
        PartsStep(c, s, steps[0]);
        StartStep(c, s, steps[0]);
        RecordStep(c, s, steps[0]);
        MessageStep(c, s, steps[0]);
        PresenceStep(c, s, steps[0]);
      }
      ExecInv(c, Next(c, s, steps[0]), steps[1..]);
    }
  }

  /**
   * The transfer does not start, and so no octet of the file leaves, before
   * the peer has applied the message that announces it.
   */
  lemma AnnouncedBeforeSent(c: Config, steps: seq<Step>)
    ensures
      var s := Exec(c, Init(c), steps);
      s.transfer.phase.Transmitting? || s.transfer.sent > 0 ==> Applied(c, s)
  {
    InitInv(c);
    ExecInv(c, Init(c), steps);
  }

  /** An announced transfer that has not been given up has started once every message has been delivered. */
  lemma AcknowledgedMeansStarted(c: Config, steps: seq<Step>)
    ensures
      var s := Exec(c, Init(c), steps);
      c.id in s.chat.authors && s.chat.alice.inbox == [] && s.chat.bob.inbox == [] ==> !s.transfer.phase.Waiting?
  {
    InitInv(c);
    ExecInv(c, Init(c), steps);
  }

  /** The receiver has the file message unless somebody deleted it, and it has ended with the file. */
  ghost predicate Arrived(c: Config, s: State) {
    && (Chat.Holds(s.chat, Receiver(c), c.id) <==> Status.HasMessage(s.receiver.messages, c.id))
    && (forall m :: m in s.receiver.messages && m.messageId == c.id ==>
          Status.Finished(m) && Concat(m.file.value.chunks) == c.file)
  }

  lemma ClosedIsArrived(c: Config, s: State)
    requires RecordInv(c, s) && MessageInv(c, s) && PresenceInv(c, s) && s.closing.ClosedBySender?
    ensures Arrived(c, s)
  {
    assert forall m :: m in s.receiver.messages && m.messageId == c.id ==> MessageOk(c, s, m);
  }

  /**
   * When the sender has closed the channel and the receiver has handled that,
   * the receiver's file message has ended, and its chunks are the file.
   */
  lemma FileArrives(c: Config, steps: seq<Step>)
    ensures var s := Exec(c, Init(c), steps); s.closing.ClosedBySender? ==> Arrived(c, s)
  {
    InitInv(c);
    ExecInv(c, Init(c), steps);
    var s := Exec(c, Init(c), steps);
    if s.closing.ClosedBySender? {
      ClosedIsArrived(c, s);
    }
  }

  /** The transfer has no productive step left, and neither peer has a message on its way. */
  ghost predicate NothingToDo(c: Config, s: State) {
    && s.chat.alice.inbox == [] && s.chat.bob.inbox == []
    && forall t :: Transfer.Productive(t) ==> !Enabled(c, s, Move(t))
  }

  lemma NothingToTransfer(c: Config, s: State)
    requires NothingToDo(c, s) && c.id in s.chat.authors && s.closing.NotClosed? && !s.transfer.phase.Waiting?
    ensures Transfer.Quiescent(s.transfer)
  {
    forall t | Transfer.Productive(t)
      ensures !Transfer.Enabled(s.transfer, t)
    {
      assert !Enabled(c, s, Move(t));
    }
  }

  /**
   * Sessions finish: when an announced transfer that was not given up, on a
   * channel that was not lost, can go no further, the sender has closed the
   * channel, unless the file is empty and its opening report was lost; and
   * then the close event is all that is missing for the file to have arrived.
   */
  lemma SessionFinishes(c: Config, steps: seq<Step>, error: Option<string>)
    requires
      var s := Exec(c, Init(c), steps);
      NothingToDo(c, s) && c.id in s.chat.authors && s.closing.NotClosed? && !s.transfer.phase.Abandoned?
    ensures
      var s := Exec(c, Init(c), steps);
      && s.transfer.sent == |c.file|
      && (s.transfer.closeCalls == 1 <==> |c.file| > 0 || !s.transfer.openingLost)
      && (s.transfer.closeCalls == 1 ==> Arrived(c, Next(c, s, ReceiverCloses(error))))
  {
    InitInv(c);
    ExecInv(c, Init(c), steps);
    var s := Exec(c, Init(c), steps);
    AcknowledgedMeansStarted(c, steps);
    NothingToTransfer(c, s);
    Transfer.QuiescentEnd(s.transfer);
    if s.transfer.closeCalls == 1 {
      CloseArrives(c, s, error);
    }
  }

  lemma CloseArrives(c: Config, s: State, error: Option<string>)
    requires Inv(c, s) && s.closing.NotClosed? && s.transfer.closeCalls == 1
    ensures Arrived(c, Next(c, s, ReceiverCloses(error)))
  {
    var step := ReceiverCloses(error);
    RecordStep(c, s, step);
    MessageStep(c, s, step);
    PresenceStep(c, s, step);
    ClosedIsArrived(c, Do(c, s, step));
  }

  lemma EndedIsPart(c: Config, s: State, m: Status.Message)
    requires Transfer.DataInv(s.transfer) && s.transfer.file == c.file
    requires MessageOk(c, s, m) && Status.Finished(m)
    ensures Concat(m.file.value.chunks) <= c.file
  {
    Transfer.ReceivedIsPrefix(s.transfer);
  }

  /** Whenever the file message has ended, closed by the sender or lost, it has a beginning of the file. */
  lemma PartOfFileArrives(c: Config, steps: seq<Step>, m: Status.Message)
    ensures
      var s := Exec(c, Init(c), steps);
      m in s.receiver.messages && m.messageId == c.id && Status.Finished(m) ==>
        Concat(m.file.value.chunks) <= c.file
  {
    InitInv(c);
    ExecInv(c, Init(c), steps);
    var s := Exec(c, Init(c), steps);
    if m in s.receiver.messages && m.messageId == c.id && Status.Finished(m) {
      EndedIsPart(c, s, m);
    }
  }

  // ---------------------------------------------------------------- one session, field by field

  /** A run goes on with one step at a time, and a step that is not enabled is skipped. */
  lemma {:induction false} ExecOneMore(c: Config, s: State, steps: seq<Step>, step: Step)
    ensures Exec(c, s, []) == s && Exec(c, s, steps + [step]) == Next(c, Exec(c, s, steps), step)
    decreases |steps|
  {
    if steps == [] {
      assert (steps + [step])[1..] == [];
    } else {
      assert (steps + [step])[1..] == steps[1..] + [step];
      ExecOneMore(c, Next(c, s, steps[0]), steps[1..], step);
    }
  }

  /** Any other message may be sent meanwhile, and anything may happen to other messages and channels. */
  lemma OthersGoOn(c: Config, s: State, p: Chat.Peer, id: string, body: string, e: Status.Event)
    ensures id != c.id ==> Next(c, s, Talk(Chat.Send(p, id, body))).chat == Chat.Next(s.chat, Chat.Send(p, id, body))
    ensures Unrelated(c, e) ==> Next(c, s, Elsewhere(e)).receiver == Status.Apply(s.receiver, e)
  {
  }

  /** The two inboxes of the sender and of the receiver. */
  predicate Quiet(c: Config, s: State) {
    Chat.At(s.chat, c.sender).inbox == [] && Chat.At(s.chat, Receiver(c)).inbox == []
  }

  lemma Announcing(c: Config, s: State, body: string)
    requires Quiet(c, s) && c.id != "" && c.id !in s.chat.authors
    ensures
      var t := Next(c, s, Announce(body));
      && Chat.At(t.chat, c.sender).inbox == []
      && Chat.At(t.chat, Receiver(c)).inbox == [Chat.Msg(c.id, c.sender, body, false, None, None, None)]
      && t.transfer == s.transfer && t.receiver == s.receiver && t.closing == s.closing
  {
  }

  lemma Recording(c: Config, s: State, body: string, ackId: string)
    requires Chat.At(s.chat, c.sender).inbox == [] && !Status.HasMessage(s.receiver.messages, c.id)
    requires Chat.At(s.chat, Receiver(c)).inbox == [Chat.Msg(c.id, c.sender, body, false, None, None, None)]
    ensures
      var t := Next(c, s, Talk(Chat.Deliver(Receiver(c), ackId)));
      && Chat.At(t.chat, c.sender).inbox == [Chat.Msg(ackId, Receiver(c), "", false, None, None, Some(c.id))]
      && Chat.At(t.chat, Receiver(c)).inbox == []
      && t.receiver.messages
         == s.receiver.messages
            + [Status.Message(c.id, Some(Status.FileInfo(c.name, c.mime, Some(c.dcId), None, None, [], None)))]
      && t.receiver.transfers == s.receiver.transfers && t.transfer == s.transfer
  {
  }

  lemma Starting(c: Config, s: State, ackId: string, noId: string)
    requires s.transfer.phase.Waiting? && s.transfer.sent <= |s.transfer.file|
    requires Chat.At(s.chat, c.sender).inbox == [Chat.Msg(ackId, Receiver(c), "", false, None, None, Some(c.id))]
    ensures
      var t := Next(c, s, Talk(Chat.Deliver(c.sender, noId)));
      && Chat.At(t.chat, c.sender).inbox == [] && Chat.At(t.chat, Receiver(c)) == Chat.At(s.chat, Receiver(c))
      && t.transfer == Transfer.Next(s.transfer, Transfer.Start) && t.transfer.phase.Transmitting?
      && t.receiver == s.receiver
  {
  }

  /**
   * In any state of any session with nothing on its way, an announcement left
   * alone puts the file message, with its name, type and channel, last on the
   * receiver's list, and when its acknowledgement arrives the transfer starts.
   */
  lemma UndisturbedAnnouncement(c: Config, steps: seq<Step>, body: string, ackId: string, noId: string)
    requires
      var s := Exec(c, Init(c), steps);
      Quiet(c, s) && c.id != "" && c.id !in s.chat.authors && s.transfer.phase.Waiting?
    ensures
      var s := Exec(c, Init(c), steps);
      var u := Next(c, Next(c, s, Announce(body)), Talk(Chat.Deliver(Receiver(c), ackId)));
      var t := Next(c, u, Talk(Chat.Deliver(c.sender, noId)));
      && u.transfer == s.transfer && t.transfer.phase.Transmitting? && Quiet(c, t)
      && t.receiver.messages
         == s.receiver.messages
            + [Status.Message(c.id, Some(Status.FileInfo(c.name, c.mime, Some(c.dcId), None, None, [], None)))]
  {
    InitInv(c);
    ExecInv(c, Init(c), steps);
    var s := Exec(c, Init(c), steps);
    NotYetThere(c, s);
    Announcing(c, s, body);
    var a := Next(c, s, Announce(body));
    Recording(c, a, body, ackId);
    Starting(c, Next(c, a, Talk(Chat.Deliver(Receiver(c), ackId))), ackId, noId);
  }

  lemma NotYetThere(c: Config, s: State)
    requires Inv(c, s) && c.id !in s.chat.authors
    ensures !Status.HasMessage(s.receiver.messages, c.id)
  {
    assert Chat.SideInv(s.chat, Receiver(c));
  }
}
