/**
 * Message patch orders: the binary form an agent writes
 * (webrtc-agents/pkg/handlers/stream.go), its reader in the browser
 * (webrtc-web/apis/message_patch.ts), and the text the browser shows
 * (webrtc-web/components/RenderMessage.tsx).  Strings are octet sequences.
 */
module PatchCodec {
  import opened Bytes

  const APPEND := 0
  const REPLACE := 1

  datatype Order = Order(messageId: seq<byte>, kind: int, value: seq<byte>)

  datatype DecodeError = OffsetOutOfBounds | InsufficientMessageId | InsufficientValue

  datatype Result = Ok(order: Order) | Err(error: DecodeError)

  /** A length or kind that its field can hold. */
  predicate Representable(o: Order) {
    0 <= o.kind < 0x100 && |o.messageId| < 0x1_0000 && |o.value| < 0x1_0000
  }

  function EncodeU16(n: nat): seq<byte> {
    [n % 0x1_0000 / 0x100, n % 0x100]
  }

  function U16(b: seq<byte>): nat
    requires |b| == 2
  {
    b[0] as int * 0x100 + b[1]
  }

  /** The packet layout: kind, id length, id, value length, value. */
  function Encode(o: Order): seq<byte> {
    [o.kind % 0x100] + EncodeU16(|o.messageId|) + o.messageId + EncodeU16(|o.value|) + o.value
  }

  function Decode(data: seq<byte>): Result {
    if |data| < 3 then Err(OffsetOutOfBounds)
    else
      var idLength := U16(data[1..3]);
      if |data| < 3 + idLength then Err(InsufficientMessageId)
      else if |data| < 5 + idLength then Err(OffsetOutOfBounds)
      else
        var valueLength := U16(data[3 + idLength..5 + idLength]);
        if |data| < 5 + idLength + valueLength then Err(InsufficientValue)
        else Ok(Order(data[3..3 + idLength], data[0], data[5 + idLength..5 + idLength + valueLength]))
  }

  lemma U16RoundTrip(n: nat)
    ensures U16(EncodeU16(n)) == n % 0x1_0000
  {
    assert n % 0x1_0000 % 0x100 == n % 0x100;
  }

  lemma EncodeU16OfU16(b: seq<byte>)
    requires |b| == 2
    ensures EncodeU16(U16(b)) == b && U16(b) < 0x1_0000
  {
  }

  /** Where the fields of a marshalled order are. */
  lemma EncodeParts(o: Order, tail: seq<byte>)
    ensures
      var data, n, v := Encode(o) + tail, |o.messageId|, |o.value|;
      && |data| == 5 + n + v + |tail| && data[0] == o.kind % 0x100
      && data[1..3] == EncodeU16(n) && data[3..3 + n] == o.messageId
      && data[3 + n..5 + n] == EncodeU16(v) && data[5 + n..5 + n + v] == o.value
  {
  }

  /** A marshalled order, whatever follows it, is read back unchanged exactly when its fields fit. */
  lemma DecodeEncode(o: Order, tail: seq<byte>)
    ensures Decode(Encode(o) + tail) == Ok(o) <==> Representable(o)
  {
    EncodeParts(o, tail);
    DecodeParts(Encode(o) + tail, o);
  }

  lemma DecodeParts(data: seq<byte>, o: Order)
    requires
      var n, v := |o.messageId|, |o.value|;
      && |data| >= 5 + n + v && data[0] == o.kind % 0x100
      && data[1..3] == EncodeU16(n) && data[3..3 + n] == o.messageId
      && data[3 + n..5 + n] == EncodeU16(v) && data[5 + n..5 + n + v] == o.value
    ensures Decode(data) == Ok(o) <==> Representable(o)
  {
    U16RoundTrip(|o.messageId|);
    U16RoundTrip(|o.value|);
  }

  /** Whenever a buffer is accepted, marshalling what was read gives the beginning of that buffer. */
  lemma EncodeDecode(data: seq<byte>)
    requires Decode(data).Ok?
    ensures Representable(Decode(data).order) && Encode(Decode(data).order) <= data
  {
    var idLength := U16(data[1..3]);
    var valueLength := U16(data[3 + idLength..5 + idLength]);
    EncodeU16OfU16(data[1..3]);
    EncodeU16OfU16(data[3 + idLength..5 + idLength]);
    var end := 5 + idLength + valueLength;
    assert Encode(Decode(data).order) == data[..end];
  }

  /** A buffer is accepted exactly when it begins with a marshalled order that fits, and with only one. */
  lemma AcceptedBuffers(data: seq<byte>)
    ensures Decode(data).Ok? <==> exists o :: Representable(o) && Encode(o) <= data
    ensures forall o :: Representable(o) && Encode(o) <= data ==> Decode(data) == Ok(o)
  {
    if Decode(data).Ok? {
      EncodeDecode(data);
    }
    forall o | Representable(o) && Encode(o) <= data
      ensures Decode(data) == Ok(o)
    {
      DecodeEncode(o, data[|Encode(o)|..]);
      assert Encode(o) + data[|Encode(o)|..] == data;
    }
  }

  // ---------------------------------------------------------------- the writer and the reader

  /** binary.BigEndian.PutUint16 of a value truncated to 16 bits. */
  method PutUint16(buf: array<byte>, offset: nat, v: nat)
    requires offset + 2 <= buf.Length
    modifies buf
    ensures buf[..] == old(buf[..offset]) + EncodeU16(v) + old(buf[offset + 2..])
  {
    buf[offset] := v % 0x1_0000 / 0x100;
    buf[offset + 1] := v % 0x100;
  }

  /** copy(buf[offset:], src) */
  method CopyInto(buf: array<byte>, offset: nat, src: seq<byte>)
    requires offset + |src| <= buf.Length
    modifies buf
    ensures buf[..] == old(buf[..offset]) + src + old(buf[offset + |src|..])
  {
    for i := 0 to |src|
      invariant buf[..] == old(buf[..offset]) + src[..i] + old(buf[offset + i..])
    {
      buf[offset + i] := src[i];
    }
  }

  method Marshal(o: Order) returns (buf: array<byte>)
    ensures fresh(buf) && buf[..] == Encode(o)
  {
    var totalSize := 1 + 2 + |o.messageId| + 2 + |o.value|;
    buf := new byte[totalSize];
    var offset := 0;
    buf[offset] := o.kind % 0x100;
    offset := offset + 1;
    assert buf[..offset] == [o.kind % 0x100];
    PutUint16(buf, offset, |o.messageId|);
    offset := offset + 2;
    assert buf[..offset] == [o.kind % 0x100] + EncodeU16(|o.messageId|);
    CopyInto(buf, offset, o.messageId);
    offset := offset + |o.messageId|;
    assert buf[..offset] == [o.kind % 0x100] + EncodeU16(|o.messageId|) + o.messageId;
    PutUint16(buf, offset, |o.value|);
    offset := offset + 2;
    assert buf[..offset] == [o.kind % 0x100] + EncodeU16(|o.messageId|) + o.messageId + EncodeU16(|o.value|);
    CopyInto(buf, offset, o.value);
  }

  /** unmarshalMessagePatchOrder; the exceptions of DataView and its own are results. */
  method Unmarshal(data: array<byte>) returns (r: Result)
    ensures r == Decode(data[..])
  {
    var offset := 0;
    if offset + 1 > data.Length {
      return Err(OffsetOutOfBounds);
    }
    var kind := data[offset];
    offset := offset + 1;
    if offset + 2 > data.Length {
      return Err(OffsetOutOfBounds);
    }
    var messageIdLength := U16(data[offset..offset + 2]);
    assert data[..][1..3] == data[1..3];
    offset := offset + 2;
    if data.Length < offset + messageIdLength {
      return Err(InsufficientMessageId);
    }
    var messageId := data[offset..offset + messageIdLength];
    offset := offset + messageIdLength;
    if offset + 2 > data.Length {
      return Err(OffsetOutOfBounds);
    }
    var valueLength := U16(data[offset..offset + 2]);
    assert data[..][offset..offset + 2] == data[offset..offset + 2];
    offset := offset + 2;
    if data.Length < offset + valueLength {
      return Err(InsufficientValue);
    }
    var value := data[offset..offset + valueLength];
    return Ok(Order(messageId, kind, value));
  }

  // ---------------------------------------------------------------- the text shown

  /** The text after a list of patches; a patch of any other kind is ignored. */
  function Rendered(origin: seq<byte>, ps: seq<Order>): seq<byte> {
    if ps == [] then origin
    else
      var before, last := Rendered(origin, ps[..|ps| - 1]), ps[|ps| - 1];
      if last.kind == APPEND then before + last.value
      else if last.kind == REPLACE then last.value
      else before
  }

  method ApplyMessagePatches(origin: seq<byte>, patches: seq<Order>) returns (result: seq<byte>)
    ensures result == Rendered(origin, patches)
  {
    result := origin;
    for i := 0 to |patches|
      invariant result == Rendered(origin, patches[..i])
    {
      var patch := patches[i];
      assert patches[..i + 1][..i] == patches[..i];
      if patch.kind == APPEND {
        result := result + patch.value;
      } else if patch.kind == REPLACE {
        result := patch.value;
      }
    }
    assert patches[..|patches|] == patches;
  }

  /** The values of the Append orders, in order. */
  function Appended(ps: seq<Order>): seq<byte> {
    if ps == [] then []
    else (if ps[0].kind == APPEND then ps[0].value else []) + Appended(ps[1..])
  }

  ghost predicate NoReplace(ps: seq<Order>) {
    forall i :: 0 <= i < |ps| ==> ps[i].kind != REPLACE
  }

  lemma {:induction false} RenderedAppends(origin: seq<byte>, ps: seq<Order>, qs: seq<Order>)
    requires NoReplace(qs)
    ensures Rendered(origin, ps + qs) == Rendered(origin, ps) + Appended(qs)
    decreases |qs|
  {
    if qs == [] {
      assert ps + qs == ps;
    } else {
      assert ps + qs == ps + [qs[0]] + qs[1..];
      assert (ps + [qs[0]])[..|ps|] == ps;
      RenderedAppends(origin, ps + [qs[0]], qs[1..]);
    }
  }

  /** The text shown is the last Replace value followed by the later Appends. */
  lemma RenderedAfterReplace(origin: seq<byte>, before: seq<Order>, last: Order, after: seq<Order>)
    requires last.kind == REPLACE && NoReplace(after)
    ensures Rendered(origin, before + [last] + after) == last.value + Appended(after)
  {
    RenderedAppends(origin, before + [last], after);
    assert (before + [last])[..|before|] == before;
  }

  /** Without a Replace it is the original text followed by the Appends. */
  lemma RenderedWithoutReplace(origin: seq<byte>, ps: seq<Order>)
    requires NoReplace(ps)
    ensures Rendered(origin, ps) == origin + Appended(ps)
  {
    RenderedAppends(origin, [], ps);
    assert [] + ps == ps;
  }

  // ---------------------------------------------------------------- from agent to screen

  type PatchesMap = map<seq<byte>, seq<Order>>

  function PatchesOf(m: PatchesMap, id: seq<byte>): seq<Order> {
    if id in m then m[id] else []
  }

  /** The handler of the msgpatch channel; a buffer that cannot be read is skipped. */
  function HandleBuffer(m: PatchesMap, data: seq<byte>): PatchesMap {
    match Decode(data)
    case Ok(o) => m[o.messageId := PatchesOf(m, o.messageId) + [o]]
    case Err(_) => m
  }

  function HandleAll(m: PatchesMap, buffers: seq<seq<byte>>): PatchesMap
    decreases |buffers|
  {
    if buffers == [] then m else HandleAll(HandleBuffer(m, buffers[0]), buffers[1..])
  }

  function MarshalAll(os: seq<Order>): seq<seq<byte>> {
    if os == [] then [] else [Encode(os[0])] + MarshalAll(os[1..])
  }

  function OrdersFor(os: seq<Order>, id: seq<byte>): seq<Order> {
    if os == [] then []
    else (if os[0].messageId == id then [os[0]] else []) + OrdersFor(os[1..], id)
  }

  /** Buffers that decode to these orders. */
  ghost predicate Carry(buffers: seq<seq<byte>>, os: seq<Order>) {
    if os == [] then buffers == []
    else buffers != [] && Decode(buffers[0]) == Ok(os[0]) && Carry(buffers[1..], os[1..])
  }

  lemma OneHandled(m: PatchesMap, b: seq<byte>, o: Order, id: seq<byte>)
    requires Decode(b) == Ok(o)
    ensures PatchesOf(HandleBuffer(m, b), id) == PatchesOf(m, id) + if o.messageId == id then [o] else []
  {
  }

  lemma OneAndTheRest(held: seq<Order>, after: seq<Order>, os: seq<Order>, id: seq<byte>)
    requires os != []
    requires after == held + (if os[0].messageId == id then [os[0]] else []) + OrdersFor(os[1..], id)
    ensures after == held + OrdersFor(os, id)
  {
  }

  lemma {:induction false} CarriedArrive(m: PatchesMap, buffers: seq<seq<byte>>, os: seq<Order>, id: seq<byte>)
    requires Carry(buffers, os)
    ensures PatchesOf(HandleAll(m, buffers), id) == PatchesOf(m, id) + OrdersFor(os, id)
    decreases |os|
  {
    if os == [] {
    } else {
      OneHandled(m, buffers[0], os[0], id);
      CarriedArrive(HandleBuffer(m, buffers[0]), buffers[1..], os[1..], id);
      OneAndTheRest(PatchesOf(m, id), PatchesOf(HandleAll(m, buffers), id), os, id);
    }
  }

  lemma {:induction false} MarshalledCarry(os: seq<Order>)
    requires forall o :: o in os ==> Representable(o)
    ensures Carry(MarshalAll(os), os)
  {
    if os == [] {
    } else {
      assert os[0] in os && forall o :: o in os[1..] ==> o in os;
      MarshalledCarry(os[1..]);
      EncodedDecodes(os[0]);
      CarryOneMore(Encode(os[0]), MarshalAll(os[1..]), os[0], os[1..]);
      assert [os[0]] + os[1..] == os;
    }
  }

  lemma EncodedDecodes(o: Order)
    requires Representable(o)
    ensures Decode(Encode(o)) == Ok(o)
  {
    DecodeEncode(o, []);
    assert Encode(o) + [] == Encode(o);
  }

  lemma CarryOneMore(b: seq<byte>, buffers: seq<seq<byte>>, o: Order, os: seq<Order>)
    requires Decode(b) == Ok(o) && Carry(buffers, os)
    ensures Carry([b] + buffers, [o] + os)
  {
  }

  /** The patches a browser holds for a message are the orders the agent sent for it, in order. */
  lemma OrdersArrive(m: PatchesMap, os: seq<Order>, id: seq<byte>)
    requires forall o :: o in os ==> Representable(o)
    ensures PatchesOf(HandleAll(m, MarshalAll(os)), id) == PatchesOf(m, id) + OrdersFor(os, id)
  {
    MarshalledCarry(os);
    CarriedArrive(m, MarshalAll(os), os, id);
  }

  // ---------------------------------------------------------------- octet by octet

  /** The packet: kind, two octets of length, the id, two octets of length, the value, lengths big-endian. */
  lemma PacketLayout(o: Order)
    requires 0 <= o.kind < 256 && |o.messageId| < 65536 && |o.value| < 65536
    ensures
      var b, n := Encode(o), |o.messageId|;
      && |b| == 5 + n + |o.value| && b[0] == o.kind
      && b[1] == n / 256 && b[2] == n % 256 && b[3..3 + n] == o.messageId
      && b[3 + n] == |o.value| / 256 && b[4 + n] == |o.value| % 256 && b[5 + n..] == o.value
  {
  }

  /** Which error a buffer that cannot be read gives. */
  lemma DecodeErrors(data: seq<byte>)
    ensures |data| < 3 ==> Decode(data) == Err(OffsetOutOfBounds)
    ensures |data| >= 3 ==>
              var n := data[1] as int * 256 + data[2];
              && (|data| < 3 + n ==> Decode(data) == Err(InsufficientMessageId))
              && (3 + n <= |data| < 5 + n ==> Decode(data) == Err(OffsetOutOfBounds))
              && (|data| >= 5 + n ==>
                    var m := data[3 + n] as int * 256 + data[4 + n];
                    if |data| < 5 + n + m then Decode(data) == Err(InsufficientValue)
                    else Decode(data) == Ok(Order(data[3..3 + n], data[0], data[5 + n..5 + n + m])))
  {
    if |data| >= 3 {
      var n := data[1] as int * 256 + data[2];
      assert data[1..3] == [data[1], data[2]];
      if |data| >= 5 + n {
        assert data[3 + n..5 + n] == [data[3 + n], data[4 + n]];
      }
    }
  }

  /** Kind 0 appends, kind 1 replaces, and any other kind does nothing. */
  lemma OneMorePatch(origin: seq<byte>, ps: seq<Order>, o: Order)
    ensures Rendered(origin, []) == origin
    ensures o.kind == 0 ==> Rendered(origin, ps + [o]) == Rendered(origin, ps) + o.value
    ensures o.kind == 1 ==> Rendered(origin, ps + [o]) == o.value
    ensures o.kind != 0 && o.kind != 1 ==> Rendered(origin, ps + [o]) == Rendered(origin, ps)
  {
    assert (ps + [o])[..|ps|] == ps;
  }

  /** A buffer read by the browser adds its order to those of its message, and changes nothing else. */
  lemma OneBuffer(m: PatchesMap, o: Order, id: seq<byte>)
    requires 0 <= o.kind < 256 && |o.messageId| < 65536 && |o.value| < 65536
    ensures
      var after := HandleAll(m, [Encode(o)]);
      && o.messageId in after
      && after[o.messageId] == (if o.messageId in m then m[o.messageId] else []) + [o]
      && (id != o.messageId ==> (id in after <==> id in m) && (id in m ==> after[id] == m[id]))
  {
    EncodedDecodes(o);
    assert [Encode(o)][1..] == [];
  }

  lemma {:induction false} HandleOneMore(m: PatchesMap, buffers: seq<seq<byte>>, b: seq<byte>)
    ensures HandleAll(m, []) == m && HandleAll(m, buffers + [b]) == HandleAll(HandleAll(m, buffers), [b])
    decreases |buffers|
  {
    if buffers == [] {
      assert buffers + [b] == [b];
    } else {
      assert (buffers + [b])[1..] == buffers[1..] + [b];
      HandleOneMore(HandleBuffer(m, buffers[0]), buffers[1..], b);
    }
  }
}
