/**
 * The feedback stream of a file transfer: a stream of octets, cut into chunks
 * anywhere, is parsed into 32-bit big-endian words (webrtc-web/utls/streams.ts).
 */
module StreamParser {
  import opened Bytes

  const WORD_SIZE := 4

  // ---------------------------------------------------------------- words

  /** DataView.getUint32(offset, false) over the four octets given. */
  function Word(b: seq<byte>): nat
    requires |b| == WORD_SIZE
  {
    b[0] as int * 0x100_0000 + b[1] as int * 0x1_0000 + b[2] as int * 0x100 + b[3]
  }

  /** DataView.setUint32(0, n, false): the value is reduced modulo 2^32. */
  function EncodeWord(n: nat): seq<byte> {
    var m := n % TWO_TO_THE_32;
    [m / 0x100_0000, m / 0x1_0000 % 0x100, m / 0x100 % 0x100, m % 0x100]
  }

  /** The complete words of an octet string; a trailing fragment is ignored. */
  function Words(b: seq<byte>): seq<nat> {
    if |b| < WORD_SIZE then [] else [Word(b[..WORD_SIZE])] + Words(b[WORD_SIZE..])
  }

  /** The trailing fragment that `Words` ignores. */
  function Rest(b: seq<byte>): (r: seq<byte>)
    ensures |r| < WORD_SIZE
  {
    if |b| < WORD_SIZE then b else Rest(b[WORD_SIZE..])
  }

  function EncodeAll(sizes: seq<nat>): seq<byte> {
    if sizes == [] then [] else EncodeWord(sizes[0]) + EncodeAll(sizes[1..])
  }

  function Sum(ws: seq<nat>): nat {
    if ws == [] then 0 else ws[0] + Sum(ws[1..])
  }

  lemma WordOfEncode(n: nat)
    ensures Word(EncodeWord(n)) == n % TWO_TO_THE_32
  {
    var m := n % TWO_TO_THE_32;
    assert m / 0x1_0000 == m / 0x100 / 0x100;
    assert m / 0x100_0000 == m / 0x1_0000 / 0x100;
  }

  /** Word i is read at offset 4 * i, and there is no other word. */
  lemma {:induction false} WordsAt(b: seq<byte>)
    ensures |Words(b)| == |b| / WORD_SIZE
    ensures forall i :: 0 <= i < |b| / WORD_SIZE ==>
              Words(b)[i] == Word(b[i * WORD_SIZE..i * WORD_SIZE + WORD_SIZE])
  {
    if |b| < WORD_SIZE {
    } else {
      var t := b[WORD_SIZE..];
      WordsAt(t);
      forall i | 0 < i < |b| / WORD_SIZE
        ensures Words(b)[i] == Word(b[i * WORD_SIZE..i * WORD_SIZE + WORD_SIZE])
      {
        assert t[(i - 1) * WORD_SIZE..(i - 1) * WORD_SIZE + WORD_SIZE]
            == b[i * WORD_SIZE..i * WORD_SIZE + WORD_SIZE];
      }
    }
  }

  /** The fragment is the last `|b| % 4` octets. */
  lemma {:induction false} RestIsLast(b: seq<byte>)
    ensures Rest(b) == b[|b| - |b| % WORD_SIZE..]
  {
    if |b| < WORD_SIZE {
    } else {
      RestIsLast(b[WORD_SIZE..]);
      assert (|b| - WORD_SIZE) % WORD_SIZE == |b| % WORD_SIZE;
    }
  }

  /** Parsing may stop after any octet and resume with the fragment kept. */
  lemma {:induction false} WordsResume(a: seq<byte>, b: seq<byte>)
    ensures Words(a + b) == Words(a) + Words(Rest(a) + b)
    ensures Rest(a + b) == Rest(Rest(a) + b)
    decreases |a|
  {
    if |a| < WORD_SIZE {
      assert Rest(a) == a;
    } else {
      var t := a[WORD_SIZE..];
      assert (a + b)[..WORD_SIZE] == a[..WORD_SIZE];
      assert (a + b)[WORD_SIZE..] == t + b;
      WordsResume(t, b);
      assert Words(a + b) == [Word(a[..WORD_SIZE])] + (Words(t) + Words(Rest(t) + b));
    }
  }

  lemma {:induction false} SumAppend(a: seq<nat>, b: seq<nat>)
    ensures Sum(a + b) == Sum(a) + Sum(b)
  {
    if a == [] {
      assert a + b == b;
    } else {
      assert (a + b)[1..] == a[1..] + b;
      SumAppend(a[1..], b);
    }
  }

  // ---------------------------------------------------------------- the stream

  /** The parser as a function: what a list of chunks emits, and what it leaves behind. */
  function ParseAll(kept: seq<byte>, chunks: seq<seq<byte>>): (seq<nat>, seq<byte>)
    decreases |chunks|
  {
    if chunks == [] then ([], kept)
    else
      var input := kept + chunks[0];
      var (ws, left) := ParseAll(Rest(input), chunks[1..]);
      (Words(input) + ws, left)
  }

  /** The words emitted and the fragment kept depend on the octets, not on where they are cut. */
  lemma {:induction false} ChunkingIndependent(kept: seq<byte>, chunks: seq<seq<byte>>)
    requires |kept| < WORD_SIZE
    ensures ParseAll(kept, chunks) == (Words(kept + Concat(chunks)), Rest(kept + Concat(chunks)))
    decreases |chunks|
  {
    if chunks == [] {
      assert kept + Concat(chunks) == kept;
    } else {
      var input, later := kept + chunks[0], Concat(chunks[1..]);
      assert input + later == kept + Concat(chunks);
      ChunkingIndependent(Rest(input), chunks[1..]);
      WordsResume(input, later);
    }
  }

  lemma {:induction false} WordsOfEncodeAll(sizes: seq<nat>)
    ensures |EncodeAll(sizes)| == WORD_SIZE * |sizes|
    ensures |Words(EncodeAll(sizes))| == |sizes|
    ensures forall i :: 0 <= i < |sizes| ==> Words(EncodeAll(sizes))[i] == sizes[i] % TWO_TO_THE_32
  {
    if sizes == [] {
    } else {
      var e := EncodeAll(sizes);
      WordOfEncode(sizes[0]);
      WordsOfEncodeAll(sizes[1..]);
      assert e[..WORD_SIZE] == EncodeWord(sizes[0]);
      assert e[WORD_SIZE..] == EncodeAll(sizes[1..]);
    }
  }

  predicate FitsWord(sizes: seq<nat>) {
    forall i :: 0 <= i < |sizes| ==> sizes[i] < TWO_TO_THE_32
  }

  lemma ExactWhenFitting(sizes: seq<nat>)
    ensures Words(EncodeAll(sizes)) == sizes <==> FitsWord(sizes)
  {
    WordsOfEncodeAll(sizes);
    var ws := Words(EncodeAll(sizes));
    if !FitsWord(sizes) {
      var i :| 0 <= i < |sizes| && sizes[i] >= TWO_TO_THE_32;
      assert ws[i] != sizes[i];
    }
  }

  /**
   * Feedback sizes written by the receiver, re-cut into arbitrary chunks, come
   * out of the parser unchanged exactly when each fits the 32-bit field.
   */
  lemma FeedbackRoundTrip(sizes: seq<nat>, chunks: seq<seq<byte>>)
    requires Concat(chunks) == EncodeAll(sizes)
    ensures ParseAll([], chunks).1 == []
    ensures ParseAll([], chunks).0 == sizes <==> FitsWord(sizes)
  {
    ChunkingIndependent([], chunks);
    var octets := EncodeAll(sizes);
    assert [] + octets == octets;
    ExactWhenFitting(sizes);
    WordsOfEncodeAll(sizes);
    RestIsLast(octets);
  }

  // ---------------------------------------------------------------- the transformer

  /** Copies the chunks, octet by octet, into one fresh buffer. */
  method MergeArrayBuffers(chunks: seq<seq<byte>>, totalSize: nat) returns (merged: array<byte>)
    requires totalSize == |Concat(chunks)|
    ensures fresh(merged) && merged[..] == Concat(chunks)
  {
    merged := new byte[totalSize];
    var offset := 0;
    for k := 0 to |chunks|
      invariant offset == |Concat(chunks[..k])|
      invariant offset + |Concat(chunks[k..])| == totalSize
      invariant merged[..offset] == Concat(chunks[..k])
    {
      assert chunks[k..][1..] == chunks[k + 1..];
      assert chunks[..k + 1] == chunks[..k] + [chunks[k]];
      ConcatAppend(chunks[..k], [chunks[k]]);
      ConcatSingle(chunks[k]);
      ghost var before := merged[..offset];
      for i := 0 to |chunks[k]|
        invariant merged[..offset] == before
        invariant merged[offset..offset + i] == chunks[k][..i]
      {
        merged[offset + i] := chunks[k][i];
      }
      assert merged[..offset + |chunks[k]|] == before + chunks[k];
      offset := offset + |chunks[k]|;
    }
    assert chunks[..|chunks|] == chunks;
    assert merged[..] == merged[..offset];
  }

  /** A chunk handed to the transformer; only array buffers are understood. */
  datatype Chunk = Buffer(octets: seq<byte>) | OtherType

  datatype Output = Enqueued(words: seq<nat>) | UnknownBinaryType

  class Uint32StreamParser {
    var chunks: seq<seq<byte>>
    var totalSize: nat

    ghost predicate Valid()
      reads this
    {
      totalSize == |Concat(chunks)|
    }

    /** The octets received and not yet emitted. */
    ghost function Kept(): seq<byte>
      reads this
    {
      Concat(chunks)
    }

    constructor ()
      ensures Valid() && Kept() == []
    {
      chunks := [];
      totalSize := 0;
    }

    method DoConsume() returns (words: seq<nat>)
      requires Valid()
      modifies this
      ensures Valid()
      ensures words == Words(old(Kept())) && Kept() == Rest(old(Kept()))
    {
      words := [];
      if totalSize >= WORD_SIZE {
        var nWords := totalSize / WORD_SIZE;
        var restSize := totalSize % WORD_SIZE;
        var merged := MergeArrayBuffers(chunks, totalSize);
        ghost var input := Kept();
        WordsAt(input);
        for i := 0 to nWords
          invariant words == Words(input)[..i]
        {
          var offset := i * WORD_SIZE;
          var word := Word(merged[offset..offset + WORD_SIZE]);
          assert merged[offset..offset + WORD_SIZE] == input[offset..offset + WORD_SIZE];
          words := words + [word];
        }
        chunks := [];
        totalSize := 0;
        if restSize > 0 {
          var restChunk := merged[merged.Length - restSize..];
          chunks := chunks + [restChunk];
          totalSize := totalSize + restSize;
          ConcatSingle(restChunk);
        }
        RestIsLast(input);
      }
    }

    method Transform(chunk: Chunk) returns (out: Output)
      requires Valid()
      modifies this
      ensures Valid()
      ensures chunk.OtherType? ==> out == UnknownBinaryType && Kept() == old(Kept())
      ensures chunk.Buffer? ==>
                var input := old(Kept()) + chunk.octets;
                out == Enqueued(Words(input)) && Kept() == Rest(input)
    {
      if chunk.OtherType? {
        return UnknownBinaryType;
      }
      ConcatAppend(chunks, [chunk.octets]);
      ConcatSingle(chunk.octets);
      chunks := chunks + [chunk.octets];
      totalSize := totalSize + |chunk.octets|;
      var words := DoConsume();
      out := Enqueued(words);
    }

    method Flush() returns (words: seq<nat>)
      requires Valid()
      modifies this
      ensures Valid()
      ensures words == Words(old(Kept())) && Kept() == Rest(old(Kept()))
    {
      words := DoConsume();
    }
  }

  /** Pipes a whole stream through one transformer and closes it. */
  method PipeThrough(input: seq<seq<byte>>) returns (words: seq<nat>)
    ensures words == Words(Concat(input))
  {
    var parser := new Uint32StreamParser();
    words := [];
    ghost var seen: seq<byte> := [];
    for k := 0 to |input|
      invariant parser.Valid() && fresh(parser)
      invariant seen == Concat(input[..k])
      invariant words == Words(seen) && parser.Kept() == Rest(seen)
    {
      assert input[..k + 1] == input[..k] + [input[k]];
      ConcatAppend(input[..k], [input[k]]);
      ConcatSingle(input[k]);
      WordsResume(seen, input[k]);
      var out := parser.Transform(Buffer(input[k]));
      words := words + out.words;
      seen := seen + input[k];
    }
    assert input[..|input|] == input;
    var last := parser.Flush();
    WordsResume(seen, []);
    assert seen + [] == seen;
    assert Rest(seen) + [] == Rest(seen);
    words := words + last;
  }

  // ---------------------------------------------------------------- octet by octet

  /** Four octets are one big-endian word, and a number below 2^32 is reported as those four octets. */
  lemma FourOctets(a: byte, b: byte, c: byte, d: byte)
    ensures
      var n := a as int * 0x100_0000 + b as int * 0x1_0000 + c as int * 0x100 + d;
      Words([a, b, c, d]) == [n] && EncodeWord(n) == [a, b, c, d]
  {
    var o := [a, b, c, d];
    assert o[..4] == o && o[4..] == [];
    var n := a as int * 0x100_0000 + b as int * 0x1_0000 + c as int * 0x100 + d;
    assert n % 0x1_0000_0000 == n;
    assert n / 0x100 == a as int * 0x1_0000 + b as int * 0x100 + c;
    assert n / 0x1_0000 == a as int * 0x100 + b;
    assert n / 0x100_0000 == a;
  }

  /** Less than four octets are no word, and are all kept. */
  lemma FewOctets(o: seq<byte>)
    requires |o| < 4
    ensures Words(o) == [] && Rest(o) == o
  {
  }
}
