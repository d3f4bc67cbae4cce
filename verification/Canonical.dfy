/** Canonical Huffman codes given by a list of code lengths (section 3.2.2 of RFC 1951). */
module Canonical {
  import opened BitStrings

  const BMAX := 16

  /** How many symbols have code length k. */
  function Count(b: seq<nat>, k: nat): nat {
    if b == [] then 0 else Count(b[..|b| - 1], k) + (if b[|b| - 1] == k then 1 else 0)
  }

  /** How many earlier symbols have the same length as symbol i. */
  function Rank(b: seq<nat>, i: nat): nat
    requires i < |b|
  {
    Count(b[..i], b[i])
  }

  /** The smallest code of k bits: next_code of section 3.2.2, step 2. */
  function FirstCode(b: seq<nat>, k: nat): nat {
    if k <= 1 then 0 else 2 * (FirstCode(b, k - 1) + Count(b, k - 1))
  }

  /** One past the largest code of k bits. */
  function EndCode(b: seq<nat>, k: nat): nat {
    FirstCode(b, k) + Count(b, k)
  }

  /** The string s starts with the code of symbol i. */
  ghost predicate Matches(b: seq<nat>, i: nat, s: Bits) {
    i < |b| && 0 < b[i] <= |s| && BE(s[..b[i]]) == FirstCode(b, b[i]) + Rank(b, i)
  }

  /** The Kraft sum in units of 2^-16. */
  function KraftSum(b: seq<nat>): nat {
    if b == [] then 0
    else KraftSum(b[..|b| - 1]) + (if 0 < b[|b| - 1] <= BMAX then Pow2(BMAX - b[|b| - 1]) else 0)
  }

  ghost predicate Oversubscribed(b: seq<nat>) {
    KraftSum(b) > Pow2(BMAX)
  }

  ghost predicate Complete(b: seq<nat>) {
    KraftSum(b) == Pow2(BMAX)
  }

  /** The longest length in use. */
  function MaxLength(b: seq<nat>): (r: nat)
    ensures forall i :: 0 <= i < |b| ==> b[i] <= r
    ensures r > 0 ==> r in b
  {
    if b == [] then 0
    else var m := MaxLength(b[..|b| - 1]); if b[|b| - 1] > m then b[|b| - 1] else m
  }

  lemma {:induction false} CountPositive(b: seq<nat>, k: nat)
    ensures Count(b, k) > 0 <==> k in b
  {
    if b != [] {
      CountPositive(b[..|b| - 1], k);
      assert b == b[..|b| - 1] + [b[|b| - 1]];
    }
  }

  lemma {:induction false} CountPrefix(b: seq<nat>, i: nat, k: nat)
    requires i <= |b|
    ensures Count(b[..i], k) <= Count(b, k)
    ensures i < |b| && b[i] == k ==> Count(b[..i], k) < Count(b, k)
    decreases |b|
  {
    if i < |b| {
      var a := b[..|b| - 1];
      if i < |a| {
        CountPrefix(a, i, k);
        assert a[..i] == b[..i];
      } else {
        assert a == b[..i];
      }
    } else {
      assert b[..i] == b;
    }
  }

  /** Every rank below the count belongs to a symbol. */
  lemma {:induction false} SymbolOfRank(b: seq<nat>, k: nat, r: nat) returns (i: nat)
    requires r < Count(b, k)
    ensures i < |b| && b[i] == k && Rank(b, i) == r
  {
    var a := b[..|b| - 1];
    if r < Count(a, k) {
      i := SymbolOfRank(a, k, r);
      assert a[..i] == b[..i];
    } else {
      i := |b| - 1;
    }
  }

  /** Sum over all lengths up to k of the room their codes take, in units of 2^-16. */
  function RoomUpTo(b: seq<nat>, k: nat): nat
    requires k <= BMAX
  {
    if k == 0 then 0 else RoomUpTo(b, k - 1) + Mul(Count(b, k), Pow2(BMAX - k))
  }

  lemma {:induction false} RoomIsEnd(b: seq<nat>, k: nat)
    requires 1 <= k <= BMAX
    ensures RoomUpTo(b, k) == Mul(EndCode(b, k), Pow2(BMAX - k))
  {
    MulSum(FirstCode(b, k), Count(b, k), Pow2(BMAX - k));
    if k > 1 {
      RoomIsEnd(b, k - 1);
      MulDouble(EndCode(b, k - 1), Pow2(BMAX - k));
    }
  }

  lemma {:induction false} RoomGrows(b: seq<nat>, k: nat)
    requires b != [] && k <= BMAX
    ensures RoomUpTo(b, k) == RoomUpTo(b[..|b| - 1], k)
            + (if 0 < b[|b| - 1] <= k then Pow2(BMAX - b[|b| - 1]) else 0)
  {
    if k > 0 {
      RoomGrows(b, k - 1);
      MulSum(Count(b[..|b| - 1], k), 1, Pow2(BMAX - k));
    }
  }

  lemma {:induction false} RoomIsKraft(b: seq<nat>)
    ensures RoomUpTo(b, BMAX) == KraftSum(b)
  {
    if b == [] {
      RoomEmpty(BMAX);
    } else {
      RoomIsKraft(b[..|b| - 1]);
      RoomGrows(b, BMAX);
    }
  }

  lemma {:induction false} RoomEmpty(k: nat)
    requires k <= BMAX
    ensures RoomUpTo([], k) == 0
  {
    if k > 0 { RoomEmpty(k - 1); }
  }

  lemma {:induction false} RoomStops(b: seq<nat>, j: nat, k: nat)
    requires j <= k <= BMAX && MaxLength(b) <= j
    ensures RoomUpTo(b, k) == RoomUpTo(b, j)
    decreases k
  {
    if j < k {
      RoomStops(b, j, k - 1);
      CountPositive(b, k);
    }
  }

  /** The Kraft sum compares with one as the end of the longest codes compares with 2^g. */
  lemma KraftAtMax(b: seq<nat>, g: nat)
    requires 1 <= g <= BMAX && MaxLength(b) <= g
    ensures Oversubscribed(b) <==> EndCode(b, g) > Pow2(g)
    ensures Complete(b) <==> EndCode(b, g) == Pow2(g)
  {
    hide Mul, Pow2, RoomUpTo, KraftSum, EndCode, MaxLength;
    RoomIsKraft(b);
    RoomStops(b, g, BMAX);
    RoomIsEnd(b, g);
    MulPow2(g, BMAX - g);
    MulOrder(EndCode(b, g), Pow2(g), Pow2(BMAX - g));
  }

  lemma MulOrder(a: nat, b: nat, c: nat)
    requires c > 0
    ensures Mul(a, c) > Mul(b, c) <==> a > b
    ensures Mul(a, c) == Mul(b, c) <==> a == b
  {
    if a > b { MulSum(b, a - b, c); MulAtLeast(a - b, c); }
    if b > a { MulSum(a, b - a, c); MulAtLeast(b - a, c); }
  }

  lemma MulAtLeast(a: nat, c: nat)
    requires a > 0
    ensures Mul(a, c) >= c
  {
  }

  /** Too many codes at some length stay too many at every longer one. */
  lemma {:induction false} OverflowSticks(b: seq<nat>, j: nat, k: nat)
    requires 1 <= j <= k && EndCode(b, j) > Pow2(j)
    ensures EndCode(b, k) > Pow2(k)
    decreases k
  {
    if j < k { OverflowSticks(b, j, k - 1); }
  }

  /** With room for the longest codes, all shorter lengths leave room. */
  lemma {:induction false} RoomBelow(b: seq<nat>, k: nat, g: nat)
    requires 1 <= k < g && EndCode(b, g) <= Pow2(g) && Count(b, g) > 0
    ensures EndCode(b, k) < Pow2(k)
    decreases g - k
  {
    if k + 1 < g {
      RoomBelow(b, k + 1, g);
    }
  }
}
