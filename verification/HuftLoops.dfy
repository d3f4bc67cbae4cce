/** The inner loops of huft_build: the backwards increment (zBoot/inflate.c:289-292), filling the
    cells of a codeword (284-287) and choosing a table's width (220-235). */
module HuftLoops {
  import opened BitStrings
  import opened Huffman
  import opened HuftTables
  import opened HuftSteps
  import opened HuftAdvance

  lemma {:induction false} LowSmall(x: nat, m: nat)
    requires x < Pow2(m)
    ensures Low(x, m) == x
  {
    if m > 0 { LowSmall(x / 2, m - 1); }
  }

  lemma {:induction false} LowStep(x: nat, m: nat)
    ensures Low(x + Pow2(m), m) == Low(x, m)
  {
    if m > 0 {
      LowStep(x / 2, m - 1);
      assert (x + Pow2(m)) / 2 == x / 2 + Pow2(m - 1);
      assert (x + Pow2(m)) % 2 == x % 2;
    }
  }

  lemma {:induction false} LowGap(x: nat, y: nat, m: nat)
    requires Low(x, m) == Low(y, m) && x < y
    ensures x + Pow2(m) <= y
  {
    if m > 0 {
      assert x % 2 == y % 2;
      LowGap(x / 2, y / 2, m - 1);
    }
  }

  lemma {:induction false} LEAppend(q: Bits, b: bool)
    ensures LE(q + [b]) == LE(q) + if b then Pow2(|q|) else 0
  {
    if q == [] {
      assert [b][1..] == [];
    } else {
      assert (q + [b])[1..] == q[1..] + [b];
      LEAppend(q[1..], b);
    }
  }

  lemma {:induction false} ShrLastBit(p: Bits)
    requires p != []
    ensures Shr(LE(p), |p| - 1) % 2 == if p[|p| - 1] then 1 else 0
  {
    LEShift(p, |p| - 1);
    assert p[|p| - 1..] == [p[|p| - 1]];
    assert [p[|p| - 1]][1..] == [];
  }

  /** `i` goes to the next k-bit codeword, counting from the top bit down. */
  method BackIncrement(i0: nat, k: nat, ghost bits: Bits) returns (i: nat)
    requires |bits| == k && i0 == LE(bits)
    ensures i == LE(Successor(bits))
  {
    i := i0;
    var b: int := k - 1;
    ghost var p := bits;
    assert Successor(p) + Zeros(0) == Successor(bits);
    while b >= 0 && Shr(i, b) % 2 == 1
      invariant -1 <= b < k && |p| == b + 1
      invariant i == LE(p)
      invariant Successor(bits) == Successor(p) + Zeros(k - 1 - b)
    {
      ShrLastBit(p);
      ghost var q := p[..b];
      assert p == q + [true];
      LEAppend(q, true);
      assert [false] + Zeros(k - 1 - b) == Zeros(k - b);
      assert Successor(p) + Zeros(k - 1 - b) == Successor(q) + ([false] + Zeros(k - 1 - b));
      i := i - Pow2(b);
      b := b - 1;
      p := q;
    }
    if b >= 0 {
      ShrLastBit(p);
      ghost var q := p[..b];
      assert p == q + [false];
      LEAppend(q, false);
      LEAppend(q, true);
      i := i + Pow2(b);
    }
    LEPadded(Successor(p), Zeros(k - 1 - b));
  }

  /** Every 2^m-th cell from j0 on becomes r. */
  method FillCells(cells: seq<Entry>, j0: nat, m: nat, r: Entry) returns (out: seq<Entry>)
    requires j0 < Pow2(m)
    ensures |out| == |cells|
    ensures forall x :: 0 <= x < |cells| ==> out[x] == if Low(x, m) == j0 then r else cells[x]
  {
    out := cells;
    var j := j0;
    LowSmall(j0, m);
    forall x | 0 <= x < j
      ensures Low(x, m) != j0
    {
      if Low(x, m) == j0 { LowSmall(x, m); }
    }
    while j < |cells|
      invariant |out| == |cells| && Low(j, m) == j0
      invariant forall x :: j <= x < |cells| ==> out[x] == cells[x]
      invariant forall x :: 0 <= x < j && x < |cells| ==> out[x] == if Low(x, m) == j0 then r else cells[x]
      decreases |cells| - j
    {
      forall x | j < x < j + Pow2(m)
        ensures Low(x, m) != j0
      {
        if Low(x, m) == j0 { LowGap(j, x, m); }
      }
      LowStep(j, m);
      out := out[j := r];
      j := j + Pow2(m);
    }
  }

  /** How many bits the table that starts at the current codeword is given. */
  method TableWidth(cnt: seq<nat>, k: nat, w: nat, g: nat, l: nat, a: nat, ghost c: Code<Payload>, ghost bits: Bits)
      returns (j: nat)
    requires c.Full() && c.cnt == cnt && c.g == g && c.l == l
    requires Current(c, bits) && |bits| == k && w < k && AllFalse(bits[w..])
    requires a + 1 == c.End(k) - BE(bits)
    ensures k - w <= j && w + j <= g
    ensures Fits(c, Node(bits[..w], j, 0, []))
    ensures j > l <==> w + l < k || (w + l == k < g && Pow2(l) > a + 1)
  {
    hide Mul, Pow2, Position;
    var z := if g - w > l then l else g - w;
    j := k - w;
    var f := Pow2(j);
    ghost var pre := bits[..w];
    WordStart(c, bits, w, a + 1);
    LeftOverStart(c, pre, k, a + 1);
    if f > a + 1 {
      LeftOverPositive(c, pre, j, f - (a + 1));
      j := Widen(cnt, j, w, z, f - (a + 1), c, pre);
    }
  }

  /** Try one more bit at a time while codewords are left over. */
  method Widen(cnt: seq<nat>, j0: nat, w: nat, z: nat, f0: nat, ghost c: Code<Payload>, ghost pre: Bits)
    returns (j: nat)
    requires c.Full() && c.cnt == cnt && |pre| == w && z == (if c.g - w > c.l then c.l else c.g - w)
    requires LeftOver(c, pre, j0, f0) && f0 > 0 && w + j0 < c.g
    ensures j0 < j && w + j <= c.g && Fits(c, Node(pre, j, 0, []))
    ensures j <= z || j == j0 + 1
  {
    hide Mul, Pow2, Position;
    j := j0 + 1;
    var f, xp := f0, w + j0;
    while j < z
      invariant xp == w + j - 1 && j0 < j && (j <= z || j == j0 + 1)
      invariant w + j <= c.g && f > 0
      invariant LeftOver(c, pre, j - 1, f)
    {
      LeftOverStep(c, pre, j - 1, f);
      xp := xp + 1;
      f := 2 * f;
      if f <= cnt[xp] {
        return;
      }
      f := f - cnt[xp];
      LeftOverPositive(c, pre, j, f);
      j := j + 1;
    }
    LimitFits(c, pre, j, z);
  }

  lemma LimitFits(c: Code<Payload>, pre: Bits, j: nat, z: nat)
    requires c.Full() && |pre| + j <= c.g && z <= j && (z == c.l || z == c.g - |pre|)
    ensures Fits(c, Node(pre, j, 0, []))
  {
    if z == c.g - |pre| { LeftOverEnd(c, pre); }
  }

  /** Something left over means there are longer codewords. */
  lemma LeftOverPositive(c: Code<Payload>, pre: Bits, j: nat, f: nat)
    requires LeftOver(c, pre, j, f) && f > 0
    ensures |pre| + j < c.g
  {
    LeftOverEnd(c, pre);
  }
}
