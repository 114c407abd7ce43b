/** Octets and chunked octet streams, shared by the wire-level modules. */
module Bytes {
  type byte = b: int | 0 <= b < 256

  const TWO_TO_THE_32 := 0x1_0000_0000

  /** The octets of a list of chunks, in order. */
  function Concat(chunks: seq<seq<byte>>): seq<byte> {
    if chunks == [] then [] else chunks[0] + Concat(chunks[1..])
  }

  lemma {:induction false} ConcatAppend(a: seq<seq<byte>>, b: seq<seq<byte>>)
    ensures Concat(a + b) == Concat(a) + Concat(b)
  {
    if a == [] {
      assert a + b == b;
    } else {
      assert (a + b)[1..] == a[1..] + b;
      ConcatAppend(a[1..], b);
    }
  }

  lemma ConcatSingle(c: seq<byte>)
    ensures Concat([c]) == c
  {
    assert Concat([c]) == c + Concat([]);
  }
}
