/**
 * The hash that picks a colour for a username (webrtc-web/apis/colors.ts).  A
 * username is the list of its UTF-16 code units.
 */
module NameHash {
  import opened Bytes

  const TWO_TO_THE_31 := 0x8000_0000

  /** The conversion to a signed 32-bit integer that the bitwise operators apply. */
  function Int32(x: int): int {
    (x + TWO_TO_THE_31) % TWO_TO_THE_32 - TWO_TO_THE_31
  }

  function Abs(x: int): nat {
    if x < 0 then -x else x
  }

  function Pow31(n: nat): nat {
    if n == 0 then 1 else 31 * Pow31(n - 1)
  }

  /** The sum of code unit i times 31 to the power of the number of code units after it. */
  function Poly(s: seq<nat>): nat {
    if s == [] then 0 else s[0] * Pow31(|s| - 1) + Poly(s[1..])
  }

  lemma {:induction false} PolyAppend(s: seq<nat>, c: nat)
    ensures Poly(s + [c]) == 31 * Poly(s) + c
  {
    if s == [] {
      assert (s + [c])[1..] == [];
      assert c * Pow31(0) == c;
    } else {
      assert (s + [c])[1..] == s[1..] + [c];
      PolyAppend(s[1..], c);
      assert s[0] * (31 * Pow31(|s| - 1)) == 31 * (s[0] * Pow31(|s| - 1));
    }
  }

  lemma Int32Periodic(x: int, k: int)
    ensures Int32(x + k * TWO_TO_THE_32) == Int32(x)
  {
  }

  lemma Int32Quotient(x: int) returns (k: int)
    ensures Int32(x) == x + k * TWO_TO_THE_32
  {
    k := -((x + TWO_TO_THE_31) / TWO_TO_THE_32);
  }

  /** Reducing after every operation, as the loop does, is reducing once at the end. */
  lemma StepReduces(x: int, c: nat)
    ensures var h := Int32(x); Int32(Int32(h * 32) - h + c) == Int32(31 * x + c)
  {
    var h := Int32(x);
    var k := Int32Quotient(x);
    var j := Int32Quotient(h * 32);
    Int32Periodic(31 * x + c, 31 * k + j);
    assert Int32(h * 32) - h + c == 31 * x + c + (31 * k + j) * TWO_TO_THE_32;
  }

  method GetColorTokenHashFromUsername(username: seq<nat>, n: nat) returns (index: nat)
    requires n > 0
    ensures index == Abs(Int32(Poly(username))) % n
    ensures index < n
  {
    var hash := 0;
    for i := 0 to |username|
      invariant hash == Int32(Poly(username[..i]))
    {
      var unit := username[i];
      PolyAppend(username[..i], unit);
      assert username[..i + 1] == username[..i] + [unit];
      StepReduces(Poly(username[..i]), unit);
      hash := Int32(hash * 32) - hash + unit;
      hash := Int32(hash);
    }
    assert username[..|username|] == username;
    index := Abs(hash) % n;
  }

  /** The hash is a signed 32-bit number that differs from its argument by a multiple of 2^32. */
  lemma Int32Range(x: int) returns (k: int)
    ensures -0x8000_0000 <= Int32(x) < 0x8000_0000
    ensures Int32(x) == x + k * 0x1_0000_0000
  {
    k := Int32Quotient(x);
  }

  /** Math.abs, also of the least 32-bit number. */
  lemma AbsOf(x: int)
    ensures Abs(x) >= 0 && (Abs(x) == x || Abs(x) == -x)
    ensures Abs(-0x8000_0000) == 0x8000_0000
  {
  }

  /** One more code unit, from none. */
  lemma PolyOf(s: seq<nat>, c: nat)
    ensures Poly([]) == 0 && Poly(s + [c]) == 31 * Poly(s) + c
  {
    PolyAppend(s, c);
  }
}
