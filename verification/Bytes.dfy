/** Bytes as bits: in a deflated stream, and in the CRC, a byte's lowest bit comes first (section 3.1.1
    of RFC 1951). */
module Bytes {
  import opened BitStrings

  type Byte = x: nat | x < 256

  function BitsOf(s: seq<Byte>): (r: Bits)
    ensures |r| == 8 * |s|
  {
    if s == [] then [] else BitsOf(s[..|s| - 1]) + ToBits(s[|s| - 1], 8)
  }

  lemma {:induction false} BitsOfAppend(s: seq<Byte>, t: seq<Byte>)
    ensures BitsOf(s + t) == BitsOf(s) + BitsOf(t)
  {
    if t == [] {
      assert s + t == s;
    } else {
      assert (s + t)[..|s + t| - 1] == s + t[..|t| - 1];
      BitsOfAppend(s, t[..|t| - 1]);
    }
  }

  /** Byte i of the stream is bits 8i to 8i + 7. */
  lemma {:induction false} BitsOfByte(s: seq<Byte>, i: nat)
    requires i < |s|
    ensures BitsOf(s)[8 * i..8 * i + 8] == ToBits(s[i], 8)
  {
    if i < |s| - 1 {
      BitsOfByte(s[..|s| - 1], i);
      assert BitsOf(s)[8 * i..8 * i + 8] == BitsOf(s[..|s| - 1])[8 * i..8 * i + 8];
    }
  }

  lemma BytePow()
    ensures Pow2(8) == 256
  {
    assert Pow2(6) == 64;
    assert Pow2(7) == 128;
  }

  lemma {:induction false} BitsOfInjective(s: seq<Byte>, t: seq<Byte>)
    requires |s| == |t| && BitsOf(s) == BitsOf(t)
    ensures s == t
  {
    forall i | 0 <= i < |s|
      ensures s[i] == t[i]
    {
      BitsOfByte(s, i);
      BitsOfByte(t, i);
      BytePow();
      LEToBits(s[i], 8);
      LEToBits(t[i], 8);
    }
  }
}
