/**
 * Chunked file transfer with feedback (webrtc-web/app/page.tsx): when its
 * announcement has been acknowledged the sender pumps slices into the file
 * channel under a buffer budget, and closes the channel once the sizes
 * reported back add up to the file.  Here the acknowledgement may come at any
 * time; FileSession says what it waits for.
 */
module FileTransfer {
  import opened Bytes
  import opened StreamParser
  import opened FileStatus

  const SEGMENT_SIZE := 128 * 1024
  const BUFFER_THRESHOLD := 4 * 1024 * 1024

  function Min(a: int, b: int): int {
    if a <= b then a else b
  }

  // ---------------------------------------------------------------- the pump

  /** Where the next slice ends; the slice may overshoot the free space by one octet. */
  function SliceEnd(size: nat, offset: nat, maxSize: nat): nat {
    Min(Min(offset + SEGMENT_SIZE, size), offset + maxSize + 1)
  }

  /** The slices one run of the pump hands to the channel. */
  function PumpSlices(file: seq<byte>, offset: nat, freeSpace: int): seq<seq<byte>>
    requires offset <= |file|
    decreases |file| - offset
  {
    if freeSpace < 0 then []
    else
      var end := SliceEnd(|file|, offset, freeSpace);
      if end <= offset then []
      else [file[offset..end]] + PumpSlices(file, end, freeSpace - (end - offset))
  }

  function PumpSize(size: nat, offset: nat, freeSpace: int): nat
    requires offset <= size
  {
    if freeSpace < 0 then 0 else Min(size - offset, freeSpace + 1)
  }

  ghost predicate Slice(c: seq<byte>) {
    0 < |c| <= SEGMENT_SIZE
  }

  /** A run of the pump sends the next octets of the file: all of them, or one more than is free. */
  lemma {:induction false} PumpSendsPrefix(file: seq<byte>, offset: nat, freeSpace: int)
    requires offset <= |file|
    ensures
      var slices := PumpSlices(file, offset, freeSpace);
      var n := PumpSize(|file|, offset, freeSpace);
      && Concat(slices) == file[offset..offset + n]
      && (forall c :: c in slices ==> Slice(c))
      && |slices| <= n
    decreases |file| - offset
  {
    if freeSpace < 0 {
    } else {
      var end := SliceEnd(|file|, offset, freeSpace);
      if end > offset {
        PumpSendsPrefix(file, end, freeSpace - (end - offset));
      }
    }
  }

  /** Every slice of a run of the pump but the last is a full segment of 128 KiB. */
  lemma {:induction false} SlicesAreFull(file: seq<byte>, offset: nat, freeSpace: int, i: nat)
    requires offset <= |file| && i + 1 < |PumpSlices(file, offset, freeSpace)|
    ensures |PumpSlices(file, offset, freeSpace)[i]| == 128 * 1024
    decreases i
  {
    var end := SliceEnd(|file|, offset, freeSpace);
    if i == 0 {
      assert PumpSlices(file, end, freeSpace - (end - offset)) != [];
    } else {
      SlicesAreFull(file, end, freeSpace - (end - offset), i - 1);
    }
  }

  /** doReadFeedBackStream for each word in turn: the new total, and the calls of close so far. */
  function ReadFeedback(total: nat, closeCalls: nat, size: nat, words: seq<nat>): (nat, nat)
    decreases |words|
  {
    if words == [] then (total, closeCalls)
    else
      var t := total + words[0];
      ReadFeedback(t, if t >= size then closeCalls + 1 else closeCalls, size, words[1..])
  }

  /** The variables of one transmitFileData call and of the channel it feeds. */
  class Transmission {
    const file: seq<byte>
    var receivedTotalBytes: nat
    var closeCalls: nat
    var sentSize: nat
    var bufferedAmount: nat
    var bufferedAmountLowThreshold: nat
    var outgoing: seq<seq<byte>>

    constructor (file: seq<byte>)
      ensures receivedTotalBytes == 0 && closeCalls == 0
      ensures this.file == file && sentSize == 0 && bufferedAmount == 0 && outgoing == []
      ensures bufferedAmountLowThreshold == BUFFER_THRESHOLD
    {
      this.file := file;
      receivedTotalBytes := 0;
      closeCalls := 0;
      sentSize := 0;
      bufferedAmount := 0;
      bufferedAmountLowThreshold := BUFFER_THRESHOLD;
      outgoing := [];
    }

    /** RTCDataChannel.send */
    method Send(chunk: seq<byte>)
      modifies this`bufferedAmount, this`outgoing
      ensures outgoing == old(outgoing) + [chunk]
      ensures bufferedAmount == old(bufferedAmount) + |chunk|
    {
      outgoing := outgoing + [chunk];
      bufferedAmount := bufferedAmount + |chunk|;
    }

    /** `throws` says whether the channel refuses the slice, which the offset has then passed all the same. */
    method DoSendChunk(maxSize: nat, throws: bool) returns (s: nat)
      requires sentSize <= |file|
      modifies this`sentSize, this`bufferedAmount, this`outgoing
      ensures s == 0 <==> throws || old(sentSize) == |file|
      ensures s <= SEGMENT_SIZE && s <= maxSize + 1
      ensures sentSize == if old(sentSize) == |file| then |file| else SliceEnd(|file|, old(sentSize), maxSize)
      ensures s != 0 ==> sentSize == old(sentSize) + s
      ensures bufferedAmount == old(bufferedAmount) + s
      ensures outgoing == old(outgoing) + if s == 0 then [] else [file[old(sentSize)..sentSize]]
    {
      var offset := sentSize;
      var endLimit := Min(Min(sentSize + SEGMENT_SIZE, |file|), offset + maxSize + 1);
      if endLimit > offset {
        var chunk := file[offset..endLimit];
        if |chunk| > 0 {
          sentSize := sentSize + |chunk|;
          s := |chunk|;
          if !throws {
            Send(chunk);
            return;
          }
        }
      }
      return 0;
    }

    /** The loop as long as no send throws. */
    method DoSendChunks()
      requires sentSize <= |file|
      modifies this`sentSize, this`bufferedAmount, this`outgoing
      ensures outgoing == old(outgoing)
                          + PumpSlices(file, old(sentSize), bufferedAmountLowThreshold - old(bufferedAmount))
      ensures sentSize - old(sentSize) == bufferedAmount - old(bufferedAmount)
      ensures sentSize - old(sentSize)
           == PumpSize(|file|, old(sentSize), bufferedAmountLowThreshold - old(bufferedAmount))
      ensures old(bufferedAmount) <= bufferedAmountLowThreshold ==>
                sentSize == |file| || bufferedAmount == bufferedAmountLowThreshold + 1
    {
      var freeSpace := bufferedAmountLowThreshold - bufferedAmount;
      ghost var start, free := sentSize, freeSpace;
      while freeSpace >= 0
        invariant start <= sentSize <= |file|
        invariant freeSpace == bufferedAmountLowThreshold - bufferedAmount == free - (sentSize - start)
        invariant freeSpace >= -1 || freeSpace == free
        invariant outgoing + PumpSlices(file, sentSize, freeSpace) == old(outgoing) + PumpSlices(file, start, free)
        decreases |file| - sentSize, freeSpace
      {
        var s := DoSendChunk(freeSpace, false);
        if s == 0 {
          break;
        }
        freeSpace := freeSpace - s;
      }
    }

    /** The reports the parser emits, read one after the other. */
    method ReadFeedBackStream(words: seq<nat>)
      modifies this`receivedTotalBytes, this`closeCalls
      ensures (receivedTotalBytes, closeCalls)
           == ReadFeedback(old(receivedTotalBytes), old(closeCalls), |file|, words)
    {
      for i := 0 to |words|
        invariant ReadFeedback(receivedTotalBytes, closeCalls, |file|, words[i..])
               == ReadFeedback(old(receivedTotalBytes), old(closeCalls), |file|, words)
      {
        assert words[i..][1..] == words[i + 1..];
        receivedTotalBytes := receivedTotalBytes + words[i];
        if receivedTotalBytes >= |file| {
          closeCalls := closeCalls + 1;
        }
      }
    }
  }

  // ---------------------------------------------------------------- the protocol

  datatype Phase = Waiting | Transmitting | Abandoned

  /**
   * Both peers and the channels between them.  `slices` and `feedback` are the
   * two directions of the file channel; feedback may be delivered cut anywhere.
   */
  datatype State = State(
    file: seq<byte>,
    // sender
    phase: Phase,
    sent: nat,
    buffered: nat,
    lowEventPending: bool,
    fragment: seq<byte>,
    acknowledged: nat,
    closeCalls: nat,
    // file channel
    slices: seq<seq<byte>>,
    feedback: seq<byte>,
    // receiver
    receiverOpen: bool,
    openingLost: bool,
    entry: Entry)

  function Init(file: seq<byte>): State {
    State(file, Waiting, 0, 0, false, [], 0, 0, [], [], false, false, EMPTY_ENTRY)
  }

  datatype Step =
    | Start                        // acknowledged: the sender attaches its feedback reader and pumps
    | AckFails                     // timeout or error: the transfer is given up
    | ReceiverOpens                // the receiver's open handler reports size 0
    | LoseOpening                  // that report arrives before the sender reads feedback
    | Drain(n: nat)                // the network takes n octets from the sender's buffer
    | PumpAgain                    // the bufferedamountlow handler runs
    | DeliverSlice                 // the receiver records a slice and reports its size
    | DeliverFeedback(k: nat)      // the sender receives the next k octets of feedback

  function Received(s: State): seq<seq<byte>> {
    s.entry.arrayBufferChunks.GetOr([])
  }

  predicate Enabled(s: State, step: Step) {
    match step
    case Start => s.phase.Waiting?
    case AckFails => s.phase.Waiting?
    case ReceiverOpens => !s.receiverOpen
    case LoseOpening => !s.phase.Transmitting? && s.feedback != []
    case Drain(n) => 0 < n <= s.buffered
    case PumpAgain => s.lowEventPending
    case DeliverSlice => s.receiverOpen && s.slices != [] && s.buffered <= |Concat(s.slices[1..])|
    case DeliverFeedback(k) => s.phase.Transmitting? && k <= |s.feedback|
  }

  /** doSendChunks on the whole state. */
  function Pump(s: State): State
    requires s.sent <= |s.file|
  {
    var more := PumpSlices(s.file, s.sent, BUFFER_THRESHOLD - s.buffered);
    var n := |Concat(more)|;
    s.(sent := s.sent + n, buffered := s.buffered + n, slices := s.slices + more)
  }

  function Do(s: State, step: Step): State
    requires Enabled(s, step) && s.sent <= |s.file|
  {
    match step
    case Start => Pump(s.(phase := Transmitting))
    case AckFails => s.(phase := Abandoned)
    case ReceiverOpens => s.(receiverOpen := true, entry := EMPTY_ENTRY, feedback := s.feedback + EncodeWord(0))
    case LoseOpening => s.(feedback := [], openingLost := true)
    case Drain(n) =>
      s.(buffered := s.buffered - n,
        lowEventPending := s.lowEventPending || s.buffered - n <= BUFFER_THRESHOLD < s.buffered)
    case PumpAgain => Pump(s.(lowEventPending := false))
    case DeliverSlice =>
      s.(slices := s.slices[1..],
        entry := UpdateEntry(s.entry, ArrayBufferType, Payload.Buffer(s.slices[0])),
        feedback := s.feedback + EncodeWord(|s.slices[0]|))
    case DeliverFeedback(k) =>
      var input := s.fragment + s.feedback[..k];
      var (total, calls) := ReadFeedback(s.acknowledged, s.closeCalls, |s.file|, Words(input));
      s.(fragment := Rest(input), feedback := s.feedback[k..], acknowledged := total, closeCalls := calls)
  }

  /** A step that is not enabled when its turn comes is skipped. */
  function Next(s: State, step: Step): State {
    if s.sent <= |s.file| && Enabled(s, step) then Do(s, step) else s
  }

  function Exec(s: State, steps: seq<Step>): State
    decreases |steps|
  {
    if steps == [] then s else Exec(Next(s, steps[0]), steps[1..])
  }

  // ---------------------------------------------------------------- invariant

  /** The feedback octets the sender has not turned into words yet. */
  function Unread(s: State): seq<byte> {
    s.fragment + s.feedback
  }

  /** A zero can only be the very first report. */
  ghost predicate ZeroOnlyFirst(total: nat, words: seq<nat>) {
    forall i :: 0 <= i < |words| && words[i] == 0 ==> i == 0 && total == 0
  }

  /** Octets received and octets in flight are the part of the file sent. */
  ghost predicate DataInv(s: State) {
    && s.sent <= |s.file|
    && Concat(Received(s)) + Concat(s.slices) == s.file[..s.sent]
    && s.entry.bytesReceived == |Concat(Received(s))|
    && (forall c :: c in s.slices ==> Slice(c))
  }

  /** Sizes read by the sender and sizes on the way add up to the octets received. */
  ghost predicate FeedbackInv(s: State) {
    && |s.fragment| < WORD_SIZE
    && Rest(Unread(s)) == []
    && s.acknowledged + Sum(Words(Unread(s))) == s.entry.bytesReceived
    && ZeroOnlyFirst(s.acknowledged, Words(Unread(s)))
  }

  ghost predicate BudgetInv(s: State) {
    && s.buffered <= |Concat(s.slices)|
    && s.buffered <= BUFFER_THRESHOLD + 1
    && (s.lowEventPending ==> s.buffered <= BUFFER_THRESHOLD)
    && (s.phase.Transmitting? && s.sent < |s.file| ==> s.buffered > BUFFER_THRESHOLD || s.lowEventPending)
  }

  ghost predicate CloseDue(s: State) {
    if |s.file| > 0 then s.acknowledged == |s.file|
    else s.receiverOpen && !s.openingLost && Unread(s) == []
  }

  ghost predicate PhaseInv(s: State) {
    && s.closeCalls == (if CloseDue(s) then 1 else 0)
    && (!s.receiverOpen ==> Unread(s) == [] && Received(s) == [] && !s.openingLost)
    && (s.openingLost && s.entry.bytesReceived == 0 ==> Unread(s) == [])
    && (!s.phase.Transmitting? ==>
          && s.sent == 0 && !s.lowEventPending && s.fragment == []
          && s.feedback == if s.receiverOpen && !s.openingLost then EncodeWord(0) else [])
  }

  ghost predicate Inv(s: State) {
    DataInv(s) && FeedbackInv(s) && BudgetInv(s) && PhaseInv(s)
  }

  lemma InitInv(file: seq<byte>)
    ensures Inv(Init(file))
  {
    assert file[..0] == [];
  }

  /** What a run of the pump adds. */
  lemma PumpAdds(s: State)
    requires s.sent <= |s.file|
    ensures
      var t, n := Pump(s), PumpSize(|s.file|, s.sent, BUFFER_THRESHOLD - s.buffered);
      && t.sent == s.sent + n <= |s.file| && t.buffered == s.buffered + n
      && Concat(t.slices) == Concat(s.slices) + s.file[s.sent..s.sent + n]
      && |t.slices| <= |s.slices| + n
      && (forall c :: c in t.slices ==> c in s.slices || Slice(c))
  {
    var free := BUFFER_THRESHOLD - s.buffered;
    PumpSendsPrefix(s.file, s.sent, free);
    ConcatAppend(s.slices, PumpSlices(s.file, s.sent, free));
  }

  lemma PumpInv(s: State)
    requires DataInv(s) && FeedbackInv(s) && s.buffered <= |Concat(s.slices)| && s.buffered <= BUFFER_THRESHOLD
    ensures DataInv(Pump(s)) && FeedbackInv(Pump(s))
    ensures !s.lowEventPending ==> BudgetInv(Pump(s))
    ensures Pump(s).sent < |s.file| ==> Pump(s).buffered == BUFFER_THRESHOLD + 1
  {
    PumpAdds(s);
    var t := Pump(s);
    assert s.file[..s.sent] + s.file[s.sent..t.sent] == s.file[..t.sent];
    assert Concat(Received(s)) + (Concat(s.slices) + s.file[s.sent..t.sent]) == s.file[..t.sent];
  }

  /** Appending one more report to the feedback. */
  lemma ReportInv(s: State, size: nat)
    requires Rest(Unread(s)) == [] && size < TWO_TO_THE_32
    ensures var t := s.(feedback := s.feedback + EncodeWord(size));
      Words(Unread(t)) == Words(Unread(s)) + [size] && Rest(Unread(t)) == []
  {
    var w := EncodeWord(size);
    WordsResume(Unread(s), w);
    assert [] + w == w;
    assert Unread(s) + w == s.fragment + (s.feedback + w);
    WordOfEncode(size);
    assert w[..WORD_SIZE] == w;
    assert Words(w) == [size];
  }

  lemma DeliverSliceData(s: State)
    requires DataInv(s) && BudgetInv(s) && Enabled(s, DeliverSlice)
    ensures DataInv(Do(s, DeliverSlice)) && BudgetInv(Do(s, DeliverSlice))
    ensures Slice(s.slices[0]) && s.sent > 0
  {
    var c := s.slices[0];
    var t := Do(s, DeliverSlice);
    assert c in s.slices;
    ConcatAppend(Received(s), [c]);
    ConcatSingle(c);
    assert Received(t) == Received(s) + [c];
    assert Concat(s.slices) == c + Concat(t.slices);
    assert Concat(Received(t)) + Concat(t.slices) == Concat(Received(s)) + Concat(s.slices);
    assert |s.file[..s.sent]| >= |c|;
  }

  lemma DeliverSliceFeedback(s: State)
    requires FeedbackInv(s) && Enabled(s, DeliverSlice) && Slice(s.slices[0]) && s.sent <= |s.file|
    ensures FeedbackInv(Do(s, DeliverSlice))
    ensures Unread(Do(s, DeliverSlice)) != []
  {
    var c := s.slices[0];
    ReportInv(s, |c|);
    SumAppend(Words(Unread(s)), [|c|]);
    assert Sum([|c|]) == |c|;
  }

  lemma DeliverSliceInv(s: State)
    requires Inv(s) && Enabled(s, DeliverSlice)
    ensures Inv(Do(s, DeliverSlice))
  {
    DeliverSliceData(s);
    DeliverSliceFeedback(s);
  }

  lemma {:induction false} ReadFeedbackTotal(total: nat, calls: nat, size: nat, words: seq<nat>)
    ensures ReadFeedback(total, calls, size, words).0 == total + Sum(words)
    decreases |words|
  {
    if words == [] {
    } else {
      ReadFeedbackTotal(total + words[0], if total + words[0] >= size then calls + 1 else calls, size, words[1..]);
    }
  }

  /** While reports do not exceed the file, close is called once, on the report that completes it. */
  lemma {:induction false} ReadFeedbackCloses(total: nat, calls: nat, size: nat, words: seq<nat>)
    requires 0 < size && total + Sum(words) <= size && ZeroOnlyFirst(total, words)
    ensures ReadFeedback(total, calls, size, words).1
         == calls + if total < size == total + Sum(words) then 1 else 0
    decreases |words|
  {
    if words == [] {
    } else {
      var t := total + words[0];
      assert forall i :: 0 <= i < |words[1..]| ==> words[1..][i] == words[i + 1];
      ReadFeedbackCloses(t, if t >= size then calls + 1 else calls, size, words[1..]);
      assert Sum(words) == words[0] + Sum(words[1..]);
    }
  }

  /** For an empty file every report calls close. */
  lemma {:induction false} ReadFeedbackEmptyFile(total: nat, calls: nat, words: seq<nat>)
    ensures ReadFeedback(total, calls, 0, words).1 == calls + |words|
    decreases |words|
  {
    if words == [] {
    } else {
      ReadFeedbackEmptyFile(total + words[0], calls + 1, words[1..]);
    }
  }

  lemma SumZero(total: nat, words: seq<nat>)
    requires ZeroOnlyFirst(total, words)
    ensures |words| > 1 ==> Sum(words) > 0
  {
    if |words| > 1 {
      assert Sum(words) == words[0] + Sum(words[1..]);
      assert Sum(words[1..]) >= words[1];
    }
  }

  lemma ZeroOnlyFirstSplit(total: nat, now: seq<nat>, later: seq<nat>)
    requires ZeroOnlyFirst(total, now + later)
    ensures ZeroOnlyFirst(total, now) && ZeroOnlyFirst(total + Sum(now), later)
  {
    assert forall i :: 0 <= i < |now| ==> (now + later)[i] == now[i];
    assert forall i :: 0 <= i < |later| ==> (now + later)[|now| + i] == later[i];
  }

  /** What remains after some of the feedback has been read. */
  lemma DeliverFeedbackWords(s: State, k: nat)
    requires FeedbackInv(s) && Enabled(s, DeliverFeedback(k)) && s.sent <= |s.file|
    ensures FeedbackInv(Do(s, DeliverFeedback(k)))
    ensures var now := Words(s.fragment + s.feedback[..k]);
      && ZeroOnlyFirst(s.acknowledged, now)
      && Words(Unread(s)) == now + Words(Unread(Do(s, DeliverFeedback(k))))
      && Do(s, DeliverFeedback(k)).acknowledged == s.acknowledged + Sum(now)
  {
    var t := Do(s, DeliverFeedback(k));
    var input := s.fragment + s.feedback[..k];
    assert input + s.feedback[k..] == Unread(s);
    WordsResume(input, s.feedback[k..]);
    var now, later := Words(input), Words(Unread(t));
    SumAppend(now, later);
    ReadFeedbackTotal(s.acknowledged, s.closeCalls, |s.file|, now);
    ZeroOnlyFirstSplit(s.acknowledged, now, later);
  }

  lemma NoWordsNoOctets(b: seq<byte>)
    requires Rest(b) == []
    ensures Words(b) == [] <==> b == []
  {
  }

  lemma DeliverFeedbackCloses(s: State, k: nat)
    requires Inv(s) && Enabled(s, DeliverFeedback(k))
    requires FeedbackInv(Do(s, DeliverFeedback(k)))
    requires ZeroOnlyFirst(s.acknowledged, Words(s.fragment + s.feedback[..k]))
    requires Words(Unread(s)) == Words(s.fragment + s.feedback[..k]) + Words(Unread(Do(s, DeliverFeedback(k))))
    requires Do(s, DeliverFeedback(k)).acknowledged == s.acknowledged + Sum(Words(s.fragment + s.feedback[..k]))
    ensures Do(s, DeliverFeedback(k)).closeCalls == if CloseDue(Do(s, DeliverFeedback(k))) then 1 else 0
  {
    var t := Do(s, DeliverFeedback(k));
    var now, later := Words(s.fragment + s.feedback[..k]), Words(Unread(t));
    if |s.file| > 0 {
      ReadFeedbackCloses(s.acknowledged, s.closeCalls, |s.file|, now);
    } else {
      assert |Concat(Received(s))| <= |s.file[..s.sent]|;
      SumZero(s.acknowledged, now + later);
      NoWordsNoOctets(Unread(s));
      NoWordsNoOctets(Unread(t));
      assert s.entry.bytesReceived == 0;
      ReadFeedbackEmptyFile(s.acknowledged, s.closeCalls, now);
      assert now == [] ==> now + later == later;
    }
  }

  lemma DeliverFeedbackInv(s: State, k: nat)
    requires Inv(s) && Enabled(s, DeliverFeedback(k))
    ensures Inv(Do(s, DeliverFeedback(k)))
  {
    DeliverFeedbackWords(s, k);
    DeliverFeedbackCloses(s, k);
  }

  lemma {:induction false} SlicesAreNotEmpty(slices: seq<seq<byte>>)
    requires forall c :: c in slices ==> Slice(c)
    ensures |slices| <= |Concat(slices)|
  {
    if slices == [] {
    } else {
      SlicesAreNotEmpty(slices[1..]);
      assert slices[0] in slices;
    }
  }

  lemma StartInv(s: State)
    requires Inv(s) && Enabled(s, Start)
    ensures Inv(Do(s, Start))
  {
    NothingSent(s);
    PumpInv(s.(phase := Transmitting));
  }

  lemma NothingSent(s: State)
    requires DataInv(s) && BudgetInv(s) && s.sent == 0
    ensures s.buffered == 0 && s.slices == [] && Concat(Received(s)) == []
  {
    SlicesAreNotEmpty(s.slices);
  }

  lemma ReceiverOpensFeedback(s: State)
    requires DataInv(s) && FeedbackInv(s) && Enabled(s, ReceiverOpens) && Received(s) == [] && Unread(s) == []
    ensures FeedbackInv(Do(s, ReceiverOpens)) && Words(Unread(Do(s, ReceiverOpens))) == [0]
  {
    assert Concat(Received(s)) == [];
    ReportInv(s, 0);
    assert [] + [0] == [0];
  }

  lemma ReceiverOpensData(s: State)
    requires DataInv(s) && Enabled(s, ReceiverOpens) && Received(s) == []
    ensures DataInv(Do(s, ReceiverOpens)) && s.entry.bytesReceived == 0
  {
    assert Concat(Received(s)) == [];
  }

  lemma ReceiverOpensPhase(s: State)
    requires PhaseInv(s) && Enabled(s, ReceiverOpens) && s.sent <= |s.file|
    ensures PhaseInv(Do(s, ReceiverOpens))
  {
    var t := Do(s, ReceiverOpens);
    assert Unread(s) == [] && s.fragment == [] && s.feedback == [];
    assert [] + EncodeWord(0) == EncodeWord(0);
    assert t.feedback == EncodeWord(0) && Unread(t) != [];
  }

  lemma ReceiverOpensInv(s: State)
    requires Inv(s) && Enabled(s, ReceiverOpens)
    ensures Inv(Do(s, ReceiverOpens))
  {
    ReceiverOpensData(s);
    ReceiverOpensFeedback(s);
    ReceiverOpensPhase(s);
  }

  lemma PumpAgainInv(s: State)
    requires Inv(s) && Enabled(s, PumpAgain)
    ensures Inv(Do(s, PumpAgain))
  {
    PumpInv(s.(lowEventPending := false));
  }

  lemma QuietInv(s: State, step: Step)
    requires Inv(s) && Enabled(s, step)
    requires step.AckFails? || step.LoseOpening? || step.Drain?
    ensures Inv(Do(s, step))
  {
  }

  lemma NextInv(s: State, step: Step)
    requires Inv(s)
    ensures Inv(Next(s, step)) && Next(s, step).file == s.file
  {
    if Enabled(s, step) {
      match step
      case Start => StartInv(s);
      case ReceiverOpens => ReceiverOpensInv(s);
      case PumpAgain => PumpAgainInv(s);
      case DeliverSlice => DeliverSliceInv(s);
      case DeliverFeedback(k) => DeliverFeedbackInv(s, k);
      case _ => QuietInv(s, step);
    }
  }

  lemma {:induction false} ExecInv(s: State, steps: seq<Step>)
    requires Inv(s)
    ensures Inv(Exec(s, steps)) && Exec(s, steps).file == s.file
    decreases |steps|
  {
    if steps == [] {
    } else {
      NextInv(s, steps[0]);
      ExecInv(Next(s, steps[0]), steps[1..]);
    }
  }

  // ---------------------------------------------------------------- results about every run

  /** Conservation: octets sent are received or in flight, sizes reported are read or in flight. */
  lemma Conservation(file: seq<byte>, steps: seq<Step>)
    ensures
      var s := Exec(Init(file), steps);
      && s.sent <= |file|
      && Concat(Received(s)) + Concat(s.slices) == file[..s.sent]
      && s.entry.bytesReceived == |Concat(Received(s))| == s.acknowledged + Sum(Words(Unread(s)))
  {
    InitInv(file);
    ExecInv(Init(file), steps);
  }

  lemma ReceivedIsPrefix(s: State)
    requires DataInv(s)
    ensures Concat(Received(s)) <= s.file
  {
    assert Concat(Received(s)) <= s.file[..s.sent];
  }

  lemma CloseMeansReceived(s: State)
    requires Inv(s)
    ensures s.closeCalls <= 1
    ensures s.closeCalls == 1 ==>
              && s.phase.Transmitting? && s.slices == []
              && Concat(Received(s)) == s.file && s.entry.bytesReceived == |s.file|
  {
    assert |Concat(Received(s))| + |Concat(s.slices)| == |s.file[..s.sent]|;
    SlicesAreNotEmpty(s.slices);
    if s.closeCalls == 1 {
      assert s.file[..s.sent] == s.file;
      assert Concat(Received(s)) + [] == Concat(Received(s));
      if !s.phase.Transmitting? {
        assert false by { NotStarted(s); }
      }
    }
  }

  /** When the sender has called close it has done so once, and the receiver holds the file. */
  lemma ClosedMeansReceived(file: seq<byte>, steps: seq<Step>)
    ensures
      var s := Exec(Init(file), steps);
      && s.closeCalls <= 1
      && (s.closeCalls == 1 ==> Concat(Received(s)) == file && s.entry.bytesReceived == |file| && s.slices == [])
  {
    InitInv(file);
    ExecInv(Init(file), steps);
    CloseMeansReceived(Exec(Init(file), steps));
  }

  /**
   * The buffer never holds more than one octet above the threshold, and an
   * unfinished transfer is never stuck: its buffer is above the threshold, so
   * a crossing is still to come, or the event of the last one is pending.
   */
  lemma PumpNeverStalls(file: seq<byte>, steps: seq<Step>)
    ensures
      var s := Exec(Init(file), steps);
      && s.buffered <= 4 * 1024 * 1024 + 1
      && (s.phase.Transmitting? && s.sent < |file| ==>
            s.buffered == 4 * 1024 * 1024 + 1 || (s.lowEventPending && s.buffered <= 4 * 1024 * 1024))
  {
    InitInv(file);
    ExecInv(Init(file), steps);
  }

  // ---------------------------------------------------------------- every run ends

  /** Every step changes something, except the delivery of an empty piece of feedback. */
  predicate Productive(step: Step) {
    step != DeliverFeedback(0)
  }

  /** The work left; each octet may still be sent, drained, delivered and reported. */
  function Work(s: State): nat
    requires s.sent <= |s.file|
  {
    9 * (|s.file| - s.sent) + 2 * s.buffered + (if s.lowEventPending then 1 else 0)
    + 6 * |s.slices| + |s.feedback| + (if s.receiverOpen then 0 else 6)
    + (if s.phase.Waiting? then 1 else 0)
  }

  lemma PumpWork(s: State)
    requires s.sent <= |s.file| && s.buffered <= BUFFER_THRESHOLD
    ensures Pump(s).sent <= |s.file| && Work(Pump(s)) <= Work(s)
  {
    PumpAdds(s);
    var t := Pump(s);
    assert 9 * (|s.file| - t.sent) + 2 * t.buffered + 6 * |t.slices|
        <= 9 * (|s.file| - s.sent) + 2 * s.buffered + 6 * |s.slices|;
  }

  lemma StartWork(s: State)
    requires Inv(s) && Enabled(s, Start)
    ensures Do(s, Start).sent <= |s.file| && Work(Do(s, Start)) < Work(s)
  {
    NothingSent(s);
    PumpWork(s.(phase := Transmitting));
  }

  lemma StepWork(s: State, step: Step)
    requires Inv(s) && Enabled(s, step) && Productive(step)
    ensures Do(s, step).sent <= |s.file| && Work(Do(s, step)) < Work(s)
  {
    match step
    case Start => StartWork(s);
    case PumpAgain => PumpWork(s.(lowEventPending := false));
    case DeliverSlice => DeliverSliceWork(s);
    case _ => OtherWork(s, step);
  }

  lemma DeliverSliceWork(s: State)
    requires s.sent <= |s.file| && Enabled(s, DeliverSlice)
    ensures Work(Do(s, DeliverSlice)) < Work(s)
  {
  }

  lemma OtherWork(s: State, step: Step)
    requires s.sent <= |s.file| && Enabled(s, step) && Productive(step)
    requires !step.Start? && !step.PumpAgain? && !step.DeliverSlice?
    ensures Do(s, step).sent <= |s.file| && Work(Do(s, step)) < Work(s)
  {
  }

  /** Every step of the list is enabled and productive when its turn comes. */
  ghost predicate Progresses(s: State, steps: seq<Step>)
    decreases |steps|
  {
    steps == [] || (Enabled(s, steps[0]) && Productive(steps[0]) && Progresses(Next(s, steps[0]), steps[1..]))
  }

  lemma {:induction false} WorkBoundsRun(s: State, steps: seq<Step>)
    requires Inv(s) && Progresses(s, steps)
    ensures |steps| <= Work(s)
    decreases |steps|
  {
    if steps == [] {
    } else {
      StepWork(s, steps[0]);
      NextInv(s, steps[0]);
      WorkBoundsRun(Next(s, steps[0]), steps[1..]);
    }
  }

  /** No transfer goes on for ever. */
  lemma RunsAreBounded(file: seq<byte>, steps: seq<Step>)
    requires Progresses(Init(file), steps)
    ensures |steps| <= 9 * |file| + 7
  {
    InitInv(file);
    WorkBoundsRun(Init(file), steps);
  }

  ghost predicate Quiescent(s: State) {
    forall step :: Productive(step) ==> !Enabled(s, step)
  }

  lemma NothingInFlight(s: State)
    requires Quiescent(s)
    ensures s.receiverOpen && !s.phase.Waiting? && s.buffered == 0 && !s.lowEventPending && s.slices == []
    ensures s.phase.Transmitting? ==> s.feedback == []
  {
    assert !Enabled(s, ReceiverOpens) && !Enabled(s, AckFails) && !Enabled(s, DeliverSlice);
    assert !Enabled(s, PumpAgain) && !Enabled(s, Drain(s.buffered));
    assert s.feedback != [] ==> !Enabled(s, DeliverFeedback(|s.feedback|));
  }

  lemma AllAcknowledged(s: State)
    requires DataInv(s) && FeedbackInv(s) && BudgetInv(s)
    requires s.phase.Transmitting? && s.buffered == 0 && !s.lowEventPending && s.slices == [] && s.feedback == []
    ensures s.sent == |s.file| == s.acknowledged && Unread(s) == []
  {
    assert Unread(s) == s.fragment;
    assert s.file[..s.sent] == s.file;
    assert |Concat(Received(s))| == |s.file|;
  }

  lemma NotStarted(s: State)
    requires Inv(s) && !s.phase.Transmitting?
    ensures s.closeCalls == 0 && s.sent == 0
  {
    assert s.acknowledged <= |Concat(Received(s))| <= |s.file[..s.sent]| == 0;
    assert s.receiverOpen && !s.openingLost ==> |Unread(s)| == WORD_SIZE;
  }

  ghost predicate EndsWell(s: State) {
    && (s.phase.Abandoned? ==> s.closeCalls == 0 && s.sent == 0)
    && (!s.phase.Abandoned? ==>
          s.sent == |s.file| && (s.closeCalls == 1 <==> |s.file| > 0 || !s.openingLost))
  }

  lemma QuiescentEnd(s: State)
    requires Inv(s) && Quiescent(s)
    ensures EndsWell(s)
  {
    NothingInFlight(s);
    if s.phase.Transmitting? {
      AllAcknowledged(s);
    } else {
      NotStarted(s);
    }
  }

  /**
   * A run that can go no further has either given up waiting for the
   * acknowledgement or sent everything; it has then closed the channel unless
   * the file is empty and the opening report came before the sender listened.
   */
  lemma QuiescentMeansClosed(file: seq<byte>, steps: seq<Step>)
    requires Quiescent(Exec(Init(file), steps))
    ensures Exec(Init(file), steps).file == file && EndsWell(Exec(Init(file), steps))
  {
    InitInv(file);
    ExecInv(Init(file), steps);
    QuiescentEnd(Exec(Init(file), steps));
  }

  /** The empty file whose opening report is lost is a transfer that never closes. */
  lemma EmptyFileMayNeverClose()
    ensures
      var s := Exec(Init([]), [ReceiverOpens, LoseOpening, Start]);
      s.phase.Transmitting? && s.closeCalls == 0 && Quiescent(s)
  {
    var steps := [ReceiverOpens, LoseOpening, Start];
    var s1 := Next(Init([]), ReceiverOpens);
    var s2 := Next(s1, LoseOpening);
    var s3 := Next(s2, Start);
    assert steps[1..] == [LoseOpening, Start];
    assert steps[1..][1..] == [Start];
    assert steps[1..][1..][1..] == [];
    assert Exec(Init([]), steps) == s3;
  }

  /** A run goes on with one step at a time, and a step that is not enabled is skipped. */
  lemma {:induction false} ExecOneMore(s: State, steps: seq<Step>, step: Step)
    ensures Exec(s, []) == s && Exec(s, steps + [step]) == Next(Exec(s, steps), step)
    decreases |steps|
  {
    if steps == [] {
      assert (steps + [step])[1..] == [];
    } else {
      assert (steps + [step])[1..] == steps[1..] + [step];
      ExecOneMore(Next(s, steps[0]), steps[1..], step);
    }
  }
}
