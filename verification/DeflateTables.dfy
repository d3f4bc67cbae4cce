/** What the tables of lengths and distances say (section 3.2.5 of RFC 1951, zBoot/inflate.c:47-63): the ranges of
    consecutive symbols follow each other, and the number of extra bits goes up by one with every second symbol of
    the distances and every fourth of the lengths. */
module DeflateTables {
  import opened BitStrings
  import opened Window
  import opened Deflate

  // ---- distances ----

  lemma DistanceBits(j: nat)
    requires j < 30
    ensures |CPDEXT| == 30 && CPDEXT[j] == if j < 4 then 0 else j / 2 - 1
  {
  }

  /** The ranges of the distance symbols begin at 1, leave no gap, and end at the size of the window. */
  lemma DistanceRanges(j: nat)
    requires j < 30
    ensures |CPDIST| == |CPDEXT| == 30 && CPDIST[0] == 1
    ensures CPDIST[j] + Pow2(CPDEXT[j]) == if j + 1 < 30 then CPDIST[j + 1] else 32769
  {
    Powers();
    hide Pow2;
  }

  lemma {:induction false} DistancesGrow(i: nat, j: nat)
    requires i < j < 30
    ensures |CPDIST| == |CPDEXT| == 30 && CPDIST[i] + Pow2(CPDEXT[i]) <= CPDIST[j]
  {
    hide CPDIST, CPDEXT;
    DistanceRanges(j - 1);
    if i < j - 1 { DistancesGrow(i, j - 1); } else { DistanceRanges(i); }
  }

  /** Distance d is symbol j with value x of its extra bits. */
  predicate IsDistance(d: nat, j: nat, x: nat) {
    && |CPDIST| == |CPDEXT| == 30 && j < 30
    && x < Pow2(CPDEXT[j]) && d == CPDIST[j] + x
  }

  /** Every distance from 1 to 32768 has a symbol and extra bits. */
  lemma {:induction false} DistanceFound(d: nat, n: nat) returns (j: nat, x: nat)
    requires n < 30 && 1 <= d && |CPDIST| == |CPDEXT| == 30 && d < CPDIST[n] + Pow2(CPDEXT[n])
    ensures IsDistance(d, j, x)
  {
    hide CPDIST, CPDEXT;
    if CPDIST[n] <= d {
      j, x := n, d - CPDIST[n];
    } else {
      DistanceRanges(0);
      DistanceRanges(n - 1);
      j, x := DistanceFound(d, n - 1);
    }
  }

  /** ... and only one. */
  lemma DistanceOnce(d: nat, j: nat, x: nat, j': nat, x': nat)
    requires IsDistance(d, j, x) && IsDistance(d, j', x')
    ensures j == j' && x == x'
  {
    hide CPDIST, CPDEXT;
    if j < j' { DistancesGrow(j, j'); } else if j' < j { DistancesGrow(j', j); }
  }

  /** Exactly the distances from 1 to the size of the window can be written, each in one way. */
  lemma Distances(d: nat)
    ensures WSIZE == 32768
    ensures (exists j, x :: IsDistance(d, j, x)) <==> 1 <= d <= WSIZE
    ensures forall j, x, j', x' :: IsDistance(d, j, x) && IsDistance(d, j', x') ==> j == j' && x == x'
  {
    hide CPDIST, CPDEXT;
    DistanceRanges(29);
    if 1 <= d <= WSIZE {
      var j, x := DistanceFound(d, 29);
    }
    forall j: nat, x: nat | IsDistance(d, j, x)
      ensures 1 <= d <= WSIZE
    {
      if j > 0 { DistancesGrow(0, j); }
      if j < 29 { DistancesGrow(j, 29); }
    }
    forall j: nat, x: nat, j': nat, x': nat | IsDistance(d, j, x) && IsDistance(d, j', x')
      ensures j == j' && x == x'
    {
      DistanceOnce(d, j, x, j', x');
    }
  }

  // ---- lengths ----

  lemma LengthBits(i: nat)
    requires i < 29
    ensures |CPLEXT| == 31 && CPLEXT[i] == if i < 8 || i == 28 then 0 else i / 4 - 1
  {
  }

  /** The ranges of the length symbols begin at 3 and leave no gap, but the longest length has a symbol of its own,
      beside the last value of the symbol before. */
  lemma LengthRanges(i: nat)
    requires i < 28
    ensures |CPLENS| == |CPLEXT| == 31 && CPLENS[0] == 3 && CPLENS[28] == 258
    ensures CPLENS[i] + Pow2(CPLEXT[i]) == if i + 1 < 28 then CPLENS[i + 1] else 259
  {
    Powers();
    hide Pow2;
  }

  lemma {:induction false} LengthsGrow(i: nat, j: nat)
    requires i < j < 28
    ensures |CPLENS| == |CPLEXT| == 31 && CPLENS[i] + Pow2(CPLEXT[i]) <= CPLENS[j]
  {
    hide CPLENS, CPLEXT;
    LengthRanges(j - 1);
    if i < j - 1 { LengthsGrow(i, j - 1); } else { LengthRanges(i); }
  }

  /** Length n is symbol 257 + i with value x of its extra bits. */
  predicate IsLength(n: nat, i: nat, x: nat) {
    && |CPLENS| == |CPLEXT| == 31 && i < 29
    && x < Pow2(CPLEXT[i]) && n == CPLENS[i] + x
  }

  lemma {:induction false} LengthFound(n: nat, m: nat) returns (i: nat, x: nat)
    requires m < 28 && 3 <= n && |CPLENS| == |CPLEXT| == 31 && n < CPLENS[m] + Pow2(CPLEXT[m])
    ensures IsLength(n, i, x) && i < 28
  {
    hide CPLENS, CPLEXT;
    if CPLENS[m] <= n {
      i, x := m, n - CPLENS[m];
    } else {
      LengthRanges(0);
      LengthRanges(m - 1);
      i, x := LengthFound(n, m - 1);
    }
  }

  /** Exactly the lengths from 3 to 258 can be written, each in one way, but 258 in two. */
  lemma Lengths(n: nat)
    ensures (exists i, x :: IsLength(n, i, x)) <==> 3 <= n <= 258
    ensures forall i, x, i', x' :: i < 28 && i' < 28 && IsLength(n, i, x) && IsLength(n, i', x') ==> i == i' && x == x'
    ensures forall x :: IsLength(n, 28, x) <==> n == 258 && x == 0
  {
    LengthBits(28);
    hide CPLENS, CPLEXT;
    LengthRanges(27);
    if 3 <= n <= 258 {
      var i, x := LengthFound(n, 27);
    }
    forall i: nat, x: nat | IsLength(n, i, x)
      ensures 3 <= n <= 258
    {
      if 0 < i < 28 { LengthsGrow(0, i); }
      if i < 27 { LengthsGrow(i, 27); }
    }
    forall i: nat, x: nat, i': nat, x': nat | i < 28 && i' < 28 && IsLength(n, i, x) && IsLength(n, i', x')
      ensures i == i' && x == x'
    {
      if i < i' { LengthsGrow(i, i'); } else if i' < i { LengthsGrow(i', i); }
    }
  }

  // ---- the fixed trees ----

  /** The lengths of the fixed trees (section 3.2.6). */
  lemma FixedIs(i: nat)
    ensures i < 288 ==> FixedLit()[i] == if i < 144 then 8 else if i < 256 then 9 else if i < 280 then 7 else 8
    ensures i < 30 ==> FixedDist()[i] == 5
  {
  }

  // ---- the code length code ----

  /** The lengths of the code length code come in this order: the repeat codes, no code, and then the lengths from
      the middle outwards. */
  lemma BorderIs(t: nat)
    requires t < 19
    ensures |BORDER| == 19
    ensures BORDER[t] == if t < 3 then 16 + t else if t == 3 then 0 else if t % 2 == 0 then 6 + t / 2 else 9 - t / 2
  {
  }
}
