/** Huffman codes given by counts of codewords per length: codewords of one length are
    consecutive numbers, and the first of each length follows the last of the length before it
    with one zero bit appended (section 3.2.2 of RFC 1951). */
module Huffman {
  import opened BitStrings

  /** `cnt[k]` codewords of k bits, for k = 1..g; `pay[p]` is what the p-th codeword stands for;
      tables are looked up `l` bits at a time. */
  datatype Code<P> = Code(g: nat, l: nat, cnt: seq<nat>, pay: seq<P>)
  {
    /** The first codeword of k bits. */
    ghost function First(k: nat): nat
      requires k <= |cnt|
    {
      if k <= 1 then 0 else 2 * (First(k - 1) + cnt[k - 1])
    }

    /** One past the last codeword of k bits. */
    ghost function End(k: nat): nat
      requires k < |cnt|
    {
      if k == 0 then 0 else First(k) + cnt[k]
    }

    /** The number of codewords shorter than k bits. */
    ghost function Offset(k: nat): nat
      requires k <= |cnt|
    {
      if k <= 1 then 0 else Offset(k - 1) + cnt[k - 1]
    }

    /** The point of the line just past all codewords of at most k bits. */
    ghost function EndPos(k: nat): nat
      requires k < |cnt| == g + 1
    {
      Mul(End(k), Pow2(g - k))
    }

    /** The counts leave room for every codeword and fill the whole line; the longest length is used. */
    ghost predicate Full() {
      && 1 <= l <= g
      && |cnt| == g + 1
      && End(g) == Pow2(g)
      && (forall k {:trigger RoomAfter(k)} :: 1 <= k < g ==> RoomAfter(k))
      && |pay| == Offset(g) + cnt[g]
    }

    ghost predicate RoomAfter(k: nat)
      requires k < |cnt|
    {
      End(k) < Pow2(k)
    }

    /** `c` is the codeword number `p` in order of length, then value. */
    ghost predicate IsWord(c: Bits, p: nat)
      requires |cnt| == g + 1
    {
      && 1 <= |c| <= g
      && First(|c|) <= BE(c) < End(|c|)
      && p == Offset(|c|) + BE(c) - First(|c|)
    }

    lemma EndPosStep(k: nat)
      requires 1 <= k < |cnt| == g + 1
      ensures EndPos(k) == EndPos(k - 1) + Mul(cnt[k], Pow2(g - k))
      ensures EndPos(k - 1) == Mul(First(k), Pow2(g - k))
    {
      MulSum(First(k), cnt[k], Pow2(g - k));
      if k == 1 {
      } else {
        MulDouble(End(k - 1), Pow2(g - k));
      }
    }

    lemma EndPosMonotone(j: nat, k: nat)
      requires j <= k < |cnt| == g + 1
      ensures EndPos(j) <= EndPos(k)
      decreases k - j
    {
      if j < k {
        EndPosStep(k);
        EndPosMonotone(j, k - 1);
      }
    }

    lemma OffsetMonotone(j: nat, k: nat)
      requires 1 <= j <= k < |cnt|
      ensures Offset(j) + cnt[j] <= Offset(k) + cnt[k]
      decreases k - j
    {
      if j < k { OffsetMonotone(j, k - 1); }
    }

    lemma WordHasPayload(c: Bits, p: nat)
      requires Full() && IsWord(c, p)
      ensures p < |pay|
    {
      OffsetMonotone(|c|, g);
    }

    /** Where the r-th codeword of k bits lies. */
    lemma WordPosition(c: Bits, r: nat)
      requires Full() && 1 <= |c| <= g && BE(c) == First(|c|) + r
      ensures Position(c, g) == EndPos(|c| - 1) + Mul(r, Pow2(g - |c|))
    {
      PositionScale(c, g);
      EndPosStep(|c|);
      MulSum(First(|c|), r, Pow2(g - |c|));
    }

    lemma WordInterval(c: Bits, p: nat)
      requires Full() && IsWord(c, p)
      ensures EndPos(|c| - 1) <= Position(c, g)
      ensures Position(c, g) + Pow2(g - |c|) <= EndPos(|c|)
    {
      var k := |c|;
      var r := BE(c) - First(k);
      WordPosition(c, r);
      EndPosStep(k);
      MulMonotone(r + 1, cnt[k], Pow2(g - k));
      MulSum(r, 1, Pow2(g - k));
    }

    /** No codeword is a prefix of another: at most one codeword starts any bit string. */
    lemma WordUnique(c: Bits, p: nat, c': Bits, p': nat, s: Bits)
      requires Full() && IsWord(c, p) && IsWord(c', p') && c <= s && c' <= s
      ensures c == c' && p == p'
    {
      NotShorter(c, p, c', p', s);
      NotShorter(c', p', c, p, s);
      assert c == s[..|c|] == c';
    }

    lemma NotShorter(c: Bits, p: nat, c': Bits, p': nat, s: Bits)
      requires Full() && IsWord(c, p) && IsWord(c', p') && c <= s && c' <= s
      ensures |c| >= |c'|
    {
      if |c| < |c'| {
        WordInterval(c, p);
        WordInterval(c', p');
        EndPosMonotone(|c|, |c'| - 1);
        Dyadic(c, c', g);
      }
    }
  }

  /** The interval of a string lies inside the interval of each of its prefixes. */
  lemma Inside(c: Bits, m: nat, g: nat)
    requires m <= |c| <= g
    ensures Position(c[..m], g) <= Position(c, g)
    ensures Position(c, g) + Pow2(g - |c|) <= Position(c[..m], g) + Pow2(g - m)
  {
    var a, b := c[..m], c[m..];
    assert c == a + b;
    PositionConcat(a, b, g);
    PositionBound(b, g - m);
  }

  /** Two strings of which neither extends the other have disjoint intervals. */
  lemma Disjoint(c: Bits, s: Bits, g: nat)
    requires |c| <= g && |s| <= g
    requires !(c <= s) && !(s <= c) && Position(c, g) <= Position(s, g)
    ensures Position(c, g) + Pow2(g - |c|) <= Position(s, g)
  {
    if |c| <= |s| {
      DyadicAfter(c, s, g);
    } else {
      var m := |s|;
      Inside(c, m, g);
      var a := c[..m];
      assert a != s;
      DyadicAfter(a, s, g);
    }
  }

  /** The k-bit codeword after p; all ones wraps to all zeros. */
  function Successor(p: Bits): (q: Bits)
    ensures |q| == |p|
  {
    if p == [] then []
    else if p[|p| - 1] then Successor(p[..|p| - 1]) + [false]
    else p[..|p| - 1] + [true]
  }

  lemma {:induction false} SuccessorBE(p: Bits)
    ensures BE(p) + 1 < Pow2(|p|) ==> BE(Successor(p)) == BE(p) + 1
    ensures BE(p) + 1 == Pow2(|p|) ==> AllFalse(Successor(p))
  {
    if p == [] {
    } else {
      var q := p[..|p| - 1];
      assert p == q + [p[|p| - 1]];
      BEAppend(q, p[|p| - 1]);
      PositionBound(q, |q|);
      if p[|p| - 1] {
        SuccessorBE(q);
        BEAppend(Successor(q), false);
      } else {
        BEAppend(q, true);
      }
    }
  }

  /** Incrementing leaves a prefix alone, sets one bit, and clears everything after it. */
  lemma {:induction false} SuccessorCarry(p: Bits) returns (m: nat)
    requires BE(p) + 1 < Pow2(|p|)
    ensures m < |p| && !p[m] && Successor(p) == p[..m] + [true] + Zeros(|p| - m - 1)
  {
    var q := p[..|p| - 1];
    assert p == q + [p[|p| - 1]];
    BEAppend(q, p[|p| - 1]);
    if p[|p| - 1] {
      m := SuccessorCarry(q);
      assert q[..m] == p[..m];
      assert Zeros(|q| - m - 1) + [false] == Zeros(|p| - m - 1);
    } else {
      m := |p| - 1;
    }
  }
}
