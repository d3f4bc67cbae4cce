/** The bit buffer of the inflater (zBoot/inflate.c:66-83): NEEDBITS takes bytes into it, DUMPBITS drops
    bits that have been used. */
module Reader {
  import opened BitStrings
  import opened Bytes

  /** n bits at a position of the stream, as a number; the first is the lowest. */
  function Num(s: Bits, pos: nat, n: nat): (v: nat)
    requires pos + n <= |s|
    ensures v < Pow2(n)
  {
    LEBound(s[pos..pos + n]);
    LE(s[pos..pos + n])
  }

  lemma NumByte(input: seq<Byte>, i: nat, pos: nat)
    requires i < |input| && pos <= 8 * i
    ensures LE(BitsOf(input)[pos..8 * i + 8]) == LE(BitsOf(input)[pos..8 * i]) + Shl(input[i], 8 * i - pos)
  {
    hide BitsOf, LE;
    var s := BitsOf(input);
    assert s[pos..8 * i + 8] == s[pos..8 * i] + s[8 * i..8 * i + 8];
    LEConcat(s[pos..8 * i], s[8 * i..8 * i + 8]);
    BitsOfByte(input, i);
    BytePow();
    LEToBits(input[i], 8);
  }

  lemma NumCut(s: Bits, pos: nat, end: nat, n: nat)
    requires pos + n <= end <= |s|
    ensures Low(LE(s[pos..end]), n) == Num(s, pos, n)
    ensures Shr(LE(s[pos..end]), n) == LE(s[pos + n..end])
  {
    hide LE, Low, Shr;
    LEShift(s[pos..end], n);
    assert s[pos..end][..n] == s[pos..pos + n] && s[pos..end][n..] == s[pos + n..end];
  }

  class Reader {
    const input: seq<Byte>
    var inptr: nat
    var bb: nat
    var bk: nat

    /** The buffer holds the last bk of the bits read so far, in 32 bits. */
    ghost predicate Valid()
      reads this
    {
      && inptr <= |input| && bk <= 8 * inptr && bk < 32
      && bb == LE(BitsOf(input)[8 * inptr - bk..8 * inptr])
    }

    /** The number of bits used. */
    ghost function Pos(): (p: nat)
      reads this
      requires Valid()
      ensures p <= |Stream()|
    {
      8 * inptr - bk
    }

    ghost function Stream(): Bits {
      BitsOf(input)
    }

    /** fill_inbuf takes one byte more than input_len (zBoot/misc.c:193): `extra` is what lies behind. */
    constructor (data: seq<Byte>, extra: Byte)
      ensures Valid() && input == data + [extra] && Pos() == 0
    {
      input, inptr, bb, bk := data + [extra], 0, 0, 0;
    }

    lemma Fits()
      requires Valid()
      ensures bb < Pow2(bk) <= Pow2(31)
    {
      LEBound(BitsOf(input)[8 * inptr - bk..8 * inptr]);
      hide BitsOf, LE, Pow2;
      Pow2Monotone(bk, 31);
    }

    /** NEEDBITS; when the input is used up the system halts (zBoot/misc.c:201-203). */
    method Need(n: nat) returns (ok: bool)
      requires Valid() && n <= 16
      modifies this
      ensures Valid() && Pos() == old(Pos()) && (ok ==> bk >= n)
        && (ok <==> old(Pos()) + n <= |Stream()| || old(bk) >= n)
    {
      hide BitsOf, LE, Shl;
      while bk < n
        invariant Valid() && Pos() == old(Pos()) && bk < 24 + old(bk)
        invariant old(bk) >= n ==> bk == old(bk)
      {
        if inptr == |input| {
          return false;
        }
        NumByte(input, inptr, 8 * inptr - bk);
        bb := bb + Shl(input[inptr], bk);
        inptr := inptr + 1;
        bk := bk + 8;
      }
      return true;
    }

    /** The n low bits of the buffer, as mask_bits picks them. */
    function Peek(n: nat): nat
      reads this
    {
      Low(bb, n)
    }

    lemma PeekIs(n: nat)
      requires Valid() && n <= bk
      ensures Peek(n) == Num(Stream(), Pos(), n)
    {
      NumCut(BitsOf(input), 8 * inptr - bk, 8 * inptr, n);
    }

    /** DUMPBITS */
    method Dump(n: nat)
      requires Valid() && n <= bk
      modifies this`bb, this`bk
      ensures Valid() && Pos() == old(Pos()) + n && bk == old(bk) - n
    {
      NumCut(BitsOf(input), 8 * inptr - bk, 8 * inptr, n);
      bb := Shr(bb, n);
      bk := bk - n;
    }

    /** Read a number of n bits. */
    method Take(n: nat) returns (ok: bool, v: nat)
      requires Valid() && n <= 16
      modifies this
      ensures Valid()
      ensures ok <==> old(Pos()) + n <= |Stream()|
      ensures ok ==> Pos() == old(Pos()) + n && v == Num(Stream(), old(Pos()), n)
      ensures !ok ==> Pos() == old(Pos())
    {
      ok := Need(n);
      v := 0;
      if ok {
        PeekIs(n);
        v := Peek(n);
        Dump(n);
      }
    }

    /** Give back the whole bytes that were read ahead (zBoot/inflate.c:799-805). */
    method GiveBack() returns (used: nat)
      requires Valid()
      modifies this`inptr, this`bk
      ensures used == inptr == (old(Pos()) + 7) / 8
    {
      hide BitsOf, LE;
      while bk >= 8
        invariant bk <= 8 * inptr && 8 * inptr - bk == old(Pos())
      {
        bk := bk - 8;
        inptr := inptr - 1;
      }
      return inptr;
    }
  }
}
