/** Bit strings as the inflater sees them.  A bit string is written in the order in which its
    bits arrive.  `LE` is its value as a table index (first bit least significant, the way the
    bit buffer holds it) and `BE` its value as a Huffman code (first bit most significant,
    section 3.1.1 of RFC 1951).  `Position` places the string on a line of 2^g points: the
    strings of at most g bits that extend p are exactly the points of a dyadic interval. */
module BitStrings {

  type Bits = seq<bool>

  function Pow2(n: nat): (r: nat)
    ensures r >= 1
  {
    if n == 0 then 1 else 2 * Pow2(n - 1)
  }

  /** Multiplication as repeated addition. */
  function Mul(a: nat, b: nat): nat {
    if a == 0 then 0 else Mul(a - 1, b) + b
  }

  lemma {:induction false} MulIs(a: nat, b: nat)
    ensures Mul(a, b) == a * b
  {
    if a > 0 {
      MulIs(a - 1, b);
      assert (a - 1) * b + b == a * b;
    }
  }

  lemma {:induction false} MulSum(a: nat, b: nat, c: nat)
    ensures Mul(a + b, c) == Mul(a, c) + Mul(b, c)
  {
    if a > 0 { MulSum(a - 1, b, c); }
  }

  lemma {:induction false} MulMonotone(a: nat, b: nat, c: nat)
    requires a <= b
    ensures Mul(a, c) <= Mul(b, c)
  {
    MulSum(a, b - a, c);
  }

  lemma {:induction false} MulDouble(a: nat, c: nat)
    ensures Mul(2 * a, c) == Mul(a, 2 * c)
  {
    if a > 0 {
      MulDouble(a - 1, c);
      assert Mul(2 * a - 1, c) == Mul(2 * (a - 1), c) + c;
    }
  }

  lemma {:induction false} MulPow2(m: nat, n: nat)
    ensures Mul(Pow2(m), Pow2(n)) == Pow2(m + n)
  {
    if m > 0 {
      MulDouble(Pow2(m - 1), Pow2(n));
      MulPow2(m - 1, n + 1);
    } else {
      assert Mul(1, Pow2(n)) == Mul(0, Pow2(n)) + Pow2(n);
    }
  }

  function LE(p: Bits): nat {
    if p == [] then 0 else (if p[0] then 1 else 0) + 2 * LE(p[1..])
  }

  function Position(p: Bits, g: nat): nat
    requires |p| <= g
  {
    if p == [] then 0 else (if p[0] then Pow2(g - 1) else 0) + Position(p[1..], g - 1)
  }

  function BE(p: Bits): nat {
    Position(p, |p|)
  }

  predicate AllFalse(p: Bits) {
    forall i :: 0 <= i < |p| ==> !p[i]
  }

  function Zeros(n: nat): (p: Bits)
    ensures |p| == n && AllFalse(p)
  {
    seq(n, _ => false)
  }

  /** The k low bits of i, lowest first. */
  function ToBits(i: nat, k: nat): (p: Bits)
    ensures |p| == k
  {
    if k == 0 then [] else [i % 2 == 1] + ToBits(i / 2, k - 1)
  }

  lemma Pow2Monotone(m: nat, n: nat)
    requires m <= n
    ensures Pow2(m) <= Pow2(n)
    decreases n
  {
    if m < n { Pow2Monotone(m, n - 1); }
  }

  lemma LEBound(p: Bits)
    ensures LE(p) < Pow2(|p|)
  {
    if p == [] {
    } else {
      LEBound(p[1..]);
    }
  }

  lemma LEToBits(i: nat, k: nat)
    requires i < Pow2(k)
    ensures LE(ToBits(i, k)) == i
  {
    if k == 0 {
    } else {
      LEToBits(i / 2, k - 1);
      assert ToBits(i, k)[1..] == ToBits(i / 2, k - 1);
    }
  }

  lemma ToBitsLE(p: Bits)
    ensures ToBits(LE(p), |p|) == p
  {
    if p == [] {
    } else {
      ToBitsLE(p[1..]);
      assert p == [p[0]] + p[1..];
      assert LE(p) / 2 == LE(p[1..]);
    }
  }

  lemma LEInjective(p: Bits, q: Bits)
    requires |p| == |q| && LE(p) == LE(q)
    ensures p == q
  {
    ToBitsLE(p);
    ToBitsLE(q);
  }

  /** i << w */
  function Shl(i: nat, w: nat): nat {
    if w == 0 then i else 2 * Shl(i, w - 1)
  }

  lemma {:induction false} LEConcat(a: Bits, b: Bits)
    ensures LE(a + b) == LE(a) + Shl(LE(b), |a|)
  {
    if a == [] {
      assert a + b == b;
    } else {
      assert (a + b)[1..] == a[1..] + b;
      LEConcat(a[1..], b);
    }
  }

  lemma {:induction false} LEPadded(a: Bits, z: Bits)
    requires AllFalse(z)
    ensures LE(a + z) == LE(a)
  {
    if a == [] {
      assert a + z == z;
      LEAllFalse(z);
    } else {
      assert (a + z)[1..] == a[1..] + z;
      LEPadded(a[1..], z);
    }
  }

  lemma LEAllFalse(p: Bits)
    requires AllFalse(p)
    ensures LE(p) == 0
  {
    if p != [] { LEAllFalse(p[1..]); }
  }

  /** i >> w */
  function Shr(i: nat, w: nat): nat {
    if w == 0 then i else Shr(i / 2, w - 1)
  }

  /** i & ((1 << w) - 1) */
  function Low(i: nat, w: nat): nat {
    if w == 0 then 0 else i % 2 + 2 * Low(i / 2, w - 1)
  }

  /** Shifting and masking an index drops and keeps leading bits of the string. */
  lemma {:induction false} LEShift(p: Bits, w: nat)
    requires w <= |p|
    ensures Shr(LE(p), w) == LE(p[w..])
    ensures Low(LE(p), w) == LE(p[..w])
  {
    if w == 0 {
    } else {
      LEShift(p[1..], w - 1);
      assert p[1..][w - 1..] == p[w..];
      assert p[..w][1..] == p[1..][..w - 1];
      assert LE(p) / 2 == LE(p[1..]) && LE(p) % 2 == if p[0] then 1 else 0;
    }
  }

  lemma PositionBound(p: Bits, g: nat)
    requires |p| <= g
    ensures Position(p, g) + Pow2(g - |p|) <= Pow2(g)
  {
    if p != [] { PositionBound(p[1..], g - 1); }
  }

  lemma PositionConcat(p: Bits, q: Bits, g: nat)
    requires |p| + |q| <= g
    ensures Position(p + q, g) == Position(p, g) + Position(q, g - |p|)
  {
    if p == [] {
      assert p + q == q;
    } else {
      assert (p + q)[1..] == p[1..] + q;
      PositionConcat(p[1..], q, g - 1);
    }
  }

  lemma PositionAllFalse(p: Bits, g: nat)
    requires |p| <= g && AllFalse(p)
    ensures Position(p, g) == 0
  {
    if p != [] { PositionAllFalse(p[1..], g - 1); }
  }

  lemma {:induction false} PositionScale(p: Bits, g: nat)
    requires |p| <= g
    ensures Position(p, g) == Mul(BE(p), Pow2(g - |p|))
  {
    if p != [] {
      PositionScale(p[1..], g - 1);
      MulPow2(|p| - 1, g - |p|);
      MulSum(if p[0] then Pow2(|p| - 1) else 0, BE(p[1..]), Pow2(g - |p|));
    }
  }

  lemma BEAppend(p: Bits, b: bool)
    ensures BE(p + [b]) == 2 * BE(p) + (if b then 1 else 0)
  {
    PositionConcat(p, [b], |p| + 1);
    PositionScale(p, |p| + 1);
    MulIs(BE(p), 2);
    assert Position([b], 1) == if b then 1 else 0 by { assert [b][1..] == []; }
  }

  /** Extending c is the same as lying in c's dyadic interval. */
  lemma {:induction false} Dyadic(c: Bits, s: Bits, g: nat)
    requires |c| <= |s| <= g
    ensures c <= s <==> Position(c, g) <= Position(s, g) < Position(c, g) + Pow2(g - |c|)
  {
    if c == [] {
      PositionBound(s, g);
    } else {
      Dyadic(c[1..], s[1..], g - 1);
      PositionBound(s[1..], g - 1);
      PositionBound(c[1..], g - 1);
      assert c <= s <==> c[0] == s[0] && c[1..] <= s[1..] by {
        if c[0] == s[0] && c[1..] <= s[1..] {
          assert c == [c[0]] + c[1..] && s == [s[0]] + s[1..];
        }
      }
    }
  }

  /** A string that starts at or after c, and does not extend c, starts after c's interval. */
  lemma DyadicAfter(c: Bits, s: Bits, g: nat)
    requires |c| <= |s| <= g
    requires !(c <= s) && Position(c, g) <= Position(s, g)
    ensures Position(c, g) + Pow2(g - |c|) <= Position(s, g)
  {
    Dyadic(c, s, g);
  }

  lemma BEOfPrefix(c: Bits, s: Bits, g: nat)
    requires c <= s && |s| <= g
    ensures Position(c, g) <= Position(s, g) < Position(c, g) + Pow2(g - |c|)
  {
    Dyadic(c, s, g);
  }
}
