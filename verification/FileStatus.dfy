/**
 * What a browser records about the file channels of one remote peer: the
 * reducers of webrtc-web/app/page.tsx over the message list and the table of
 * running transfers.  A missing counter or list is the same as 0 or [].
 */
module FileStatus {
  import opened Wrappers
  import opened Bytes

  datatype BinaryType = ArrayBufferType | BlobType

  /** The payload of an update: data received, or a size reported to the sender. */
  datatype Payload = Buffer(octets: seq<byte>) | Blob(size: nat) | Count(n: nat)

  datatype Entry = Entry(
    bytesReceived: nat,
    chunksReceived: nat,
    chunksMetadata: seq<(nat, BinaryType)>,
    arrayBufferChunks: Option<seq<seq<byte>>>)

  const EMPTY_ENTRY := Entry(0, 0, [], None)

  datatype Url = OriginalFile(fileId: int) | Assembled(parts: seq<seq<byte>>, name: string, mime: string)

  datatype FileInfo = FileInfo(
    name: string,
    mime: string,
    dcId: Option<string>,
    url: Option<Url>,
    originFile: Option<int>,
    chunks: seq<seq<byte>>,
    error: Option<string>)

  datatype Message = Message(messageId: string, file: Option<FileInfo>)

  datatype Peer = Peer(messages: seq<Message>, transfers: map<string, Entry>)

  // ---------------------------------------------------------------- reducers

  function PayloadSize(data: Payload): nat {
    match data
    case Buffer(octets) => |octets|
    case Blob(size) => size
    case Count(n) => n
  }

  /** updateFileTransferStatusEntryByDCData */
  function UpdateEntry(prev: Entry, binaryType: BinaryType, data: Payload): Entry {
    Entry(
      prev.bytesReceived + PayloadSize(data),
      prev.chunksReceived + 1,
      prev.chunksMetadata + [(prev.chunksReceived, binaryType)],
      if binaryType.ArrayBufferType? && data.Buffer?
      then Some(prev.arrayBufferChunks.GetOr([]) + [data.octets])
      else None)
  }

  function EntryOf(p: Peer, dcId: string): Entry {
    if dcId in p.transfers then p.transfers[dcId] else EMPTY_ENTRY
  }

  /** updateConnTrackStatusEntryByDCData */
  function ReceiveData(p: Peer, dcId: string, binaryType: BinaryType, data: Payload): Peer {
    p.(transfers := p.transfers[dcId := UpdateEntry(EntryOf(p, dcId), binaryType, data)])
  }

  /** createFileTransferStatusEntry */
  function CreateEntry(p: Peer, dcId: string): Peer {
    p.(transfers := p.transfers[dcId := EMPTY_ENTRY])
  }

  predicate OpenOn(m: Message, dcId: string) {
    m.file.Some? && m.file.value.dcId == Some(dcId)
  }

  /** The first message whose file uses the channel, as Array.find does. */
  function FindOpen(ms: seq<Message>, dcId: string): Option<FileInfo> {
    if ms == [] then None
    else if OpenOn(ms[0], dcId) then ms[0].file
    else FindOpen(ms[1..], dcId)
  }

  function ReceivedChunks(p: Peer, dcId: string): seq<seq<byte>> {
    EntryOf(p, dcId).arrayBufferChunks.GetOr([])
  }

  function CloseUrl(p: Peer, dcId: string, originFile: Option<int>): Url {
    if originFile.Some? then OriginalFile(originFile.value)
    else
      var active := FindOpen(p.messages, dcId);
      Assembled(
        ReceivedChunks(p, dcId),
        if active.Some? then active.value.name else "unknownfile",
        if active.Some? then active.value.mime else "application/octet-stream")
  }

  function CloseMessage(p: Peer, m: Message, dcId: string, error: Option<string>, originFile: Option<int>): Message {
    if OpenOn(m, dcId) then
      m.(file := Some(m.file.value.(
        dcId := None,
        url := Some(CloseUrl(p, dcId, originFile)),
        originFile := originFile,
        chunks := ReceivedChunks(p, dcId),
        error := error)))
    else m
  }

  /** closeDCById */
  function CloseDC(p: Peer, dcId: string, error: Option<string>, originFile: Option<int>): Peer {
    Peer(
      seq(|p.messages|, i requires 0 <= i < |p.messages| =>
        CloseMessage(p, p.messages[i], dcId, error, originFile)),
      p.transfers - {dcId})
  }

  predicate HasMessage(ms: seq<Message>, id: string) {
    exists i :: 0 <= i < |ms| && ms[i].messageId == id
  }

  function ReplaceFirst(ms: seq<Message>, id: string, m: Message): seq<Message> {
    if ms == [] then []
    else if ms[0].messageId == id then [m] + ms[1..]
    else [ms[0]] + ReplaceFirst(ms[1..], id, m)
  }

  function Without(ms: seq<Message>, id: string): seq<Message> {
    if ms == [] then [] else (if ms[0].messageId != id then [ms[0]] else []) + Without(ms[1..], id)
  }

  /** The three branches of updateConnTrackStatusByMsgObject. */
  function Announce(p: Peer, m: Message): Peer {
    if HasMessage(p.messages, m.messageId) then p else p.(messages := p.messages + [m])
  }

  function Amend(p: Peer, id: string, m: Message): Peer {
    p.(messages := ReplaceFirst(p.messages, id, m))
  }

  function Delete(p: Peer, id: string): Peer {
    p.(messages := Without(p.messages, id))
  }

  // ---------------------------------------------------------------- runs

  datatype Event =
    | Announced(m: Message)
    | Amended(id: string, newMessage: Message)
    | Deleted(id: string)
    | Opened(dcId: string)
    | Data(dcId: string, binaryType: BinaryType, data: Payload)
    | Closed(dcId: string, error: Option<string>, originFile: Option<int>)

  function Apply(p: Peer, e: Event): Peer {
    match e
    case Announced(m) => Announce(p, m)
    case Amended(id, m) => Amend(p, id, m)
    case Deleted(id) => Delete(p, id)
    case Opened(d) => CreateEntry(p, d)
    case Data(d, t, x) => ReceiveData(p, d, t, x)
    case Closed(d, err, f) => CloseDC(p, d, err, f)
  }

  function ApplyAll(p: Peer, es: seq<Event>): Peer
    decreases |es|
  {
    if es == [] then p else ApplyAll(Apply(p, es[0]), es[1..])
  }

  /** Closing a channel a second time, as an error followed by a close does, changes nothing. */
  lemma CloseTwice(p: Peer, d: string, e1: Option<string>, f1: Option<int>, e2: Option<string>, f2: Option<int>)
    ensures CloseDC(CloseDC(p, d, e1, f1), d, e2, f2) == CloseDC(p, d, e1, f1)
  {
    var once := CloseDC(p, d, e1, f1);
    var twice := CloseDC(once, d, e2, f2);
    forall i | 0 <= i < |once.messages|
      ensures twice.messages[i] == once.messages[i]
    {
      assert !OpenOn(once.messages[i], d);
    }
    assert twice.messages == once.messages;
  }

  /** Closing forgets what the channel carried: whatever comes on a reused id is recorded from nothing. */
  lemma ClosedChannelIsForgotten(p: Peer, d: string, error: Option<string>, f: Option<int>, later: seq<Event>)
    requires StaysOpen(later, d)
    ensures ReceivedChunks(ApplyAll(CloseDC(p, d, error, f), later), d) == DataOn(later, d)
    ensures EntryOf(ApplyAll(CloseDC(p, d, error, f), later), d).bytesReceived == |Concat(DataOn(later, d))|
  {
    ChunksAccumulate(CloseDC(p, d, error, f), later, d);
  }

  predicate Finished(m: Message) {
    m.file.Some? && m.file.value.dcId.None?
  }

  /** Nobody amends or deletes the message with this id. */
  predicate Spares(es: seq<Event>, id: string) {
    forall e :: e in es ==> (e.Amended? || e.Deleted? ==> e.id != id)
  }

  lemma {:induction false} ReplacedMembers(ms: seq<Message>, id: string, m: Message)
    ensures forall x :: x in ms && x.messageId != id ==> x in ReplaceFirst(ms, id, m)
    ensures forall x :: x in ReplaceFirst(ms, id, m) ==> x in ms || (x == m && HasMessage(ms, id))
  {
    if ms == [] {
    } else {
      if ms[0].messageId == id {
        assert HasMessage(ms, id);
      } else {
        ReplacedMembers(ms[1..], id, m);
        if HasMessage(ms[1..], id) {
          var i :| 0 <= i < |ms[1..]| && ms[1..][i].messageId == id;
          assert ms[i + 1].messageId == id;
        }
      }
    }
  }

  lemma {:induction false} WithoutMembers(ms: seq<Message>, id: string)
    ensures forall x :: x in Without(ms, id) <==> x in ms && x.messageId != id
  {
    if ms == [] {
    } else {
      WithoutMembers(ms[1..], id);
    }
  }

  lemma FinishedIsKept(p: Peer, e: Event, m: Message)
    requires m in p.messages && Finished(m) && Spares([e], m.messageId)
    ensures m in Apply(p, e).messages
  {
    assert e in [e];
    match e
    case Amended(id, n) => ReplacedMembers(p.messages, id, n);
    case Deleted(id) => WithoutMembers(p.messages, id);
    case Closed(d, err, f) =>
      var i :| 0 <= i < |p.messages| && p.messages[i] == m;
      assert CloseDC(p, d, err, f).messages[i] == m;
    case _ =>
  }

  /**
   * A finished file message survives any later events, even ones that reuse
   * its channel id, as long as nobody amends or deletes it.
   */
  lemma {:induction false} FinishedIsFrozen(p: Peer, es: seq<Event>, m: Message)
    requires m in p.messages && Finished(m) && Spares(es, m.messageId)
    ensures m in ApplyAll(p, es).messages
    decreases |es|
  {
    if es == [] {
    } else {
      assert es[0] in es && forall e :: e in es[1..] ==> e in es;
      FinishedIsKept(p, es[0], m);
      FinishedIsFrozen(Apply(p, es[0]), es[1..], m);
    }
  }

  /** The buffers that arrive on channel d, in order. */
  function DataOn(es: seq<Event>, d: string): seq<seq<byte>> {
    if es == [] then []
    else if es[0].Data? && es[0].dcId == d && es[0].data.Buffer? then [es[0].data.octets] + DataOn(es[1..], d)
    else DataOn(es[1..], d)
  }

  /** Channel d stays open, and carries array buffers only. */
  predicate StaysOpen(es: seq<Event>, d: string) {
    forall e :: e in es ==>
      && (e.Opened? ==> e.dcId != d)
      && (e.Closed? ==> e.dcId != d)
      && (e.Data? && e.dcId == d ==> e.binaryType.ArrayBufferType? && e.data.Buffer?)
  }

  /** From p to q channel d has taken these buffers, and counted them. */
  ghost predicate Took(p: Peer, q: Peer, d: string, added: seq<seq<byte>>) {
    && ReceivedChunks(q, d) == ReceivedChunks(p, d) + added
    && EntryOf(q, d).bytesReceived == EntryOf(p, d).bytesReceived + |Concat(added)|
    && EntryOf(q, d).chunksReceived == EntryOf(p, d).chunksReceived + |added|
  }

  lemma TookOne(p: Peer, e: Event, d: string)
    requires StaysOpen([e], d)
    ensures Took(p, Apply(p, e), d, DataOn([e], d))
  {
    assert e in [e];
    if e.Data? && e.dcId == d {
      ConcatSingle(e.data.octets);
    }
  }

  lemma TookBoth(p: Peer, q: Peer, r: Peer, d: string, a: seq<seq<byte>>, b: seq<seq<byte>>)
    requires Took(p, q, d, a) && Took(q, r, d, b)
    ensures Took(p, r, d, a + b)
  {
    ConcatAppend(a, b);
  }

  lemma HeadAndTail(es: seq<Event>, d: string)
    requires es != [] && StaysOpen(es, d)
    ensures StaysOpen([es[0]], d) && StaysOpen(es[1..], d)
    ensures DataOn(es, d) == DataOn([es[0]], d) + DataOn(es[1..], d)
  {
    assert [es[0]][1..] == [];
    assert es[0] in es;
  }

  lemma {:induction false} ChunksAccumulate(p: Peer, es: seq<Event>, d: string)
    requires StaysOpen(es, d)
    ensures Took(p, ApplyAll(p, es), d, DataOn(es, d))
    decreases |es|
  {
    if es == [] {
    } else {
      HeadAndTail(es, d);
      TookOne(p, es[0], d);
      ChunksAccumulate(Apply(p, es[0]), es[1..], d);
      TookBoth(p, Apply(p, es[0]), ApplyAll(p, es), d, DataOn([es[0]], d), DataOn(es[1..], d));
    }
  }

  /** The metadata of a transfer numbers its chunks from 0. */
  ghost predicate WellNumbered(e: Entry) {
    && |e.chunksMetadata| == e.chunksReceived
    && forall i :: 0 <= i < |e.chunksMetadata| ==> e.chunksMetadata[i].0 == i
  }

  /** Whatever happens on any channel, with buffers and blobs alike, every running transfer stays numbered. */
  lemma {:induction false} ChunksAreNumbered(p: Peer, es: seq<Event>)
    requires forall d :: d in p.transfers ==> WellNumbered(p.transfers[d])
    ensures forall d :: d in ApplyAll(p, es).transfers ==> WellNumbered(ApplyAll(p, es).transfers[d])
    decreases |es|
  {
    if es == [] {
    } else {
      var q := Apply(p, es[0]);
      forall d | d in q.transfers
        ensures WellNumbered(q.transfers[d])
      {
        assert WellNumbered(EntryOf(p, d));
      }
      ChunksAreNumbered(q, es[1..]);
    }
  }

  lemma {:induction false} ApplyAllAppend(p: Peer, a: seq<Event>, b: seq<Event>)
    ensures ApplyAll(p, a + b) == ApplyAll(ApplyAll(p, a), b)
    decreases |a|
  {
    if a == [] {
      assert a + b == b;
    } else {
      assert (a + b)[1..] == a[1..] + b;
      ApplyAllAppend(Apply(p, a[0]), a[1..], b);
    }
  }

  /** What is found is the first message open on the channel. */
  lemma {:induction false} SomeOpenIsFound(ms: seq<Message>, d: string, i: nat)
    requires i < |ms| && OpenOn(ms[i], d)
    ensures FindOpen(ms, d).Some?
    ensures exists j :: 0 <= j <= i && OpenOn(ms[j], d) && FindOpen(ms, d) == ms[j].file
              && forall k :: 0 <= k < j ==> !OpenOn(ms[k], d)
    decreases |ms|
  {
    if OpenOn(ms[0], d) {
      assert FindOpen(ms, d) == ms[0].file;
    } else {
      SomeOpenIsFound(ms[1..], d, i - 1);
      var j :| 0 <= j <= i - 1 && OpenOn(ms[1..][j], d) && FindOpen(ms[1..], d) == ms[1..][j].file
        && forall k :: 0 <= k < j ==> !OpenOn(ms[1..][k], d);
      assert OpenOn(ms[j + 1], d) && FindOpen(ms, d) == ms[j + 1].file;
      assert forall k :: 0 < k < j + 1 ==> ms[k] == ms[1..][k - 1];
    }
  }

  /** The local file, or the buffers received under the name and type of the announcement. */
  function LinkTo(chunks: seq<seq<byte>>, announced: FileInfo, f: Option<int>): Url {
    if f.Some? then OriginalFile(f.value) else Assembled(chunks, announced.name, announced.mime)
  }

  /** The message once its channel has closed. */
  function Closing(m: Message, url: Url, chunks: seq<seq<byte>>, error: Option<string>, f: Option<int>): Message
    requires m.file.Some?
  {
    m.(file := Some(m.file.value.(dcId := None, url := Some(url), originFile := f, chunks := chunks, error := error)))
  }

  /**
   * A file message ends with exactly the buffers its channel carried between
   * open and close, whatever happens to other channels and messages meanwhile
   * and whatever happens on any channel, its own id included, afterwards, as
   * long as nobody amends or deletes it.  Its link leads to the local file if
   * there is one, and otherwise to those buffers under the name and type of
   * the first message that uses the channel.
   */
  lemma SessionChunks(p: Peer, during: seq<Event>, d: string, error: Option<string>, f: Option<int>,
        after: seq<Event>, i: nat)
    requires StaysOpen(during, d)
    requires
      var q := ApplyAll(p, [Opened(d)] + during);
      i < |q.messages| && OpenOn(q.messages[i], d) && Spares(after, q.messages[i].messageId)
    ensures
      var ms, chunks := ApplyAll(p, [Opened(d)] + during).messages, DataOn(during, d);
      var r := ApplyAll(p, [Opened(d)] + during + [Closed(d, error, f)] + after);
      && FindOpen(ms, d).Some?
      && Closing(ms[i], LinkTo(chunks, FindOpen(ms, d).value, f), chunks, error, f) in r.messages
  {
    var atOpen := CreateEntry(p, d);
    var before := [Opened(d)] + during;
    var q := ApplyAll(p, before);
    assert before[1..] == during;
    ChunksAccumulate(atOpen, during, d);
    var closed := CloseDC(q, d, error, f);
    ApplyAllAppend(p, before, [Closed(d, error, f)] + after);
    assert before + ([Closed(d, error, f)] + after) == before + [Closed(d, error, f)] + after;
    assert ([Closed(d, error, f)] + after)[1..] == after;
    assert q == ApplyAll(atOpen, during) && ReceivedChunks(atOpen, d) == [];
    assert [] + DataOn(during, d) == DataOn(during, d);
    SomeOpenIsFound(q.messages, d, i);
    FinishedIsFrozen(closed, after, closed.messages[i]);
  }

  /** The same field by field: of the message only what the close sets has changed. */
  lemma SessionEnds(p: Peer, during: seq<Event>, d: string, error: Option<string>, f: Option<int>,
        after: seq<Event>, i: nat)
    requires StaysOpen(during, d)
    requires
      var ms := ApplyAll(p, [Opened(d)] + during).messages;
      && i < |ms| && ms[i].file.Some? && ms[i].file.value.dcId == Some(d) && Spares(after, ms[i].messageId)
      && forall j :: 0 <= j < i && ms[j].file.Some? ==> ms[j].file.value.dcId != Some(d)
    ensures
      var m := ApplyAll(p, [Opened(d)] + during).messages[i];
      var r := ApplyAll(p, [Opened(d)] + during + [Closed(d, error, f)] + after);
      exists x :: x in r.messages && x.messageId == m.messageId && x.file.Some?
        && x.file.value.name == m.file.value.name && x.file.value.mime == m.file.value.mime
        && x.file.value.dcId == None && x.file.value.chunks == DataOn(during, d)
        && x.file.value.error == error && x.file.value.originFile == f
        && x.file.value.url == Some(if f.Some? then OriginalFile(f.value)
                                    else Assembled(DataOn(during, d), m.file.value.name, m.file.value.mime))
  {
    var q := ApplyAll(p, [Opened(d)] + during);
    SessionChunks(p, during, d, error, f, after, i);
    FirstIsFound(q.messages, d, i);
  }

  lemma {:induction false} FirstIsFound(ms: seq<Message>, d: string, i: nat)
    requires i < |ms| && OpenOn(ms[i], d) && forall j :: 0 <= j < i ==> !OpenOn(ms[j], d)
    ensures FindOpen(ms, d) == ms[i].file
    decreases i
  {
    if i == 0 {
    } else {
      assert !OpenOn(ms[0], d);
      FirstIsFound(ms[1..], d, i - 1);
    }
  }

  // ---------------------------------------------------------------- one event

  lemma ApplyOneMore(p: Peer, es: seq<Event>, e: Event)
    ensures ApplyAll(p, []) == p && ApplyAll(p, es + [e]) == Apply(ApplyAll(p, es), e)
  {
    ApplyAllAppend(p, es, [e]);
    assert [e][1..] == [];
  }

  /**
   * Data of any kind is counted and numbered with its type; array buffers are
   * kept in order, and anything else makes the record forget them.  Messages
   * and other channels are left alone.
   */
  lemma DataIsRecorded(p: Peer, d: string, t: BinaryType, x: Payload)
    ensures
      var q := Apply(p, Data(d, t, x));
      var was := if d in p.transfers then p.transfers[d] else Entry(0, 0, [], None);
      && d in q.transfers
      && q.transfers[d].bytesReceived
         == was.bytesReceived + (if x.Buffer? then |x.octets| else if x.Blob? then x.size else x.n)
      && q.transfers[d].chunksReceived == was.chunksReceived + 1
      && q.transfers[d].chunksMetadata == was.chunksMetadata + [(was.chunksReceived, t)]
      && (t.ArrayBufferType? && x.Buffer? ==>
            q.transfers[d].arrayBufferChunks
            == Some((if was.arrayBufferChunks.Some? then was.arrayBufferChunks.value else []) + [x.octets]))
      && (!(t.ArrayBufferType? && x.Buffer?) ==> q.transfers[d].arrayBufferChunks == None)
      && q.messages == p.messages
      && forall c :: c != d ==>
           (c in q.transfers <==> c in p.transfers) && (c in p.transfers ==> q.transfers[c] == p.transfers[c])
  {
  }

  /** A message is added at the end, unless one with its id is there. */
  lemma AnnouncedIsLast(p: Peer, m: Message)
    ensures
      var known := exists x :: x in p.messages && x.messageId == m.messageId;
      && Apply(p, Announced(m)).messages == (if known then p.messages else p.messages + [m])
      && Apply(p, Announced(m)).transfers == p.transfers
  {
    if HasMessage(p.messages, m.messageId) {
      var i :| 0 <= i < |p.messages| && p.messages[i].messageId == m.messageId;
      assert p.messages[i] in p.messages;
    }
  }

  /** An amend replaces the first message with the id, in its place. */
  lemma {:induction false} AmendedInPlace(p: Peer, id: string, m: Message, i: nat)
    requires i < |p.messages| && p.messages[i].messageId == id
    requires forall j :: 0 <= j < i ==> p.messages[j].messageId != id
    ensures Apply(p, Amended(id, m)) == Peer(p.messages[i := m], p.transfers)
    decreases i
  {
    if i == 0 {
      assert [m] + p.messages[1..] == p.messages[0 := m];
    } else {
      var rest := Peer(p.messages[1..], p.transfers);
      AmendedInPlace(rest, id, m, i - 1);
      assert p.messages[i := m] == [p.messages[0]] + p.messages[1..][i - 1 := m];
    }
  }

  /** A delete takes out the messages with the id, and keeps the others in their order. */
  lemma {:induction false} DeletedInOrder(a: seq<Message>, b: seq<Message>, id: string)
    ensures Without(a + b, id) == Without(a, id) + Without(b, id)
  {
    if a == [] {
      assert a + b == b;
    } else {
      assert (a + b)[1..] == a[1..] + b;
      DeletedInOrder(a[1..], b, id);
    }
  }

  lemma DeletedOne(m: Message, id: string)
    ensures Without([m], id) == if m.messageId == id then [] else [m]
  {
    assert [m][1..] == [];
  }

  /**
   * The entry made on open replaces what is there, contrary to the note beside
   * the handler: buffers recorded before the open event are lost, so the order
   * is harmless exactly when there are none.
   */
  lemma OpenDiscardsEarlierData(p: Peer, early: seq<Event>, late: seq<Event>, d: string)
    requires d !in p.transfers && StaysOpen(early, d) && StaysOpen(late, d)
    ensures ReceivedChunks(ApplyAll(p, early + [Opened(d)] + late), d) == DataOn(late, d)
    ensures ReceivedChunks(ApplyAll(p, early + [Opened(d)] + late), d) == DataOn(early, d) + DataOn(late, d)
            <==> DataOn(early, d) == []
  {
    var q := ApplyAll(p, early);
    ApplyAllAppend(p, early, [Opened(d)] + late);
    assert early + ([Opened(d)] + late) == early + [Opened(d)] + late;
    assert ([Opened(d)] + late)[1..] == late;
    ChunksAccumulate(CreateEntry(q, d), late, d);
    assert [] + DataOn(late, d) == DataOn(late, d);
  }
}
