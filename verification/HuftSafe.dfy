/** When huft_build's tables are right: the lists inflate passes never make a table too wide, a
    concrete list does, and the codes they decode are prefix-free. */
module HuftSafe {
  import opened BitStrings
  import opened Huffman
  import opened Canonical
  import opened HuftTables
  import opened HuftAdvance
  import opened HuftWalk
  import opened Huft
  import opened HuftResult

  /** The codewords from length j on fill the rest of the line, each taking at most 2^(g-k) points. */
  lemma {:induction false} RestOfLine(c: Code<Payload>, k: nat, j: nat)
    requires c.Full() && 1 <= k <= j <= c.g
    ensures |c.pay| >= c.Offset(j) + c.cnt[j]
    ensures Pow2(c.g) <= c.EndPos(j) + Mul(|c.pay| - c.Offset(j) - c.cnt[j], Pow2(c.g - k))
    decreases c.g - j
  {
    hide Position, Mul;
    if j == c.g {
      MulPow2(c.g, 0);
    } else {
      RestOfLine(c, k, j + 1);
      c.EndPosStep(j + 1);
      Pow2Monotone(c.g - j - 1, c.g - k);
      MulLarger(c.cnt[j + 1], Pow2(c.g - j - 1), Pow2(c.g - k));
      MulSum(c.cnt[j + 1], |c.pay| - c.Offset(j + 1) - c.cnt[j + 1], Pow2(c.g - k));
    }
  }

  lemma {:induction false} MulLarger(a: nat, b: nat, b': nat)
    requires b <= b'
    ensures Mul(a, b) <= Mul(a, b')
  {
    if a > 0 { MulLarger(a - 1, b, b'); }
  }

  /** A codeword that ends in k - w zeros leaves a whole interval of 2^(g-w) points from its place on. */
  lemma IntervalFits(c: Code<Payload>, k: nat, val: nat, w: nat)
    requires c.Full() && w <= k <= c.g && val < Pow2(k) && Low(val, k - w) == 0
    ensures Mul(val, Pow2(c.g - k)) + Pow2(c.g - w) <= Pow2(c.g)
  {
    hide Pow2, Low;
    var y := FromBE(val, k);
    BEFromBE(val, k);
    TrailingZeros(y, k - w);
    PositionPadded(y, w, c.g);
    PositionScale(y, c.g);
    PositionBound(y[..w], c.g);
  }

  /** A table that is too wide holds at least 2^l codewords. */
  lemma WideNeedsMany(c: Code<Payload>, k: nat, val: nat, h: nat)
    requires c.Full() && 1 <= k <= c.g && c.First(k) <= val < c.End(k) && TooWideAt(c, k, val, h)
    ensures Pow2(c.l) <= |c.pay|
  {
    hide Low, Position, Pow2;
    var w := Mul(h, c.l);
    assert c.End(k) <= Pow2(k) by { if k < c.g { assert c.RoomAfter(k); } }
    IntervalFits(c, k, val, w);
    RestOfLine(c, k, k);
    var rest := |c.pay| - c.Offset(k) - c.cnt[k];
    MulSum(val, c.End(k) - val, Pow2(c.g - k));
    MulSum(c.End(k) - val, rest, Pow2(c.g - k));
    MulPow2(k - w, c.g - k);
    MulOrder(Pow2(k - w), c.End(k) - val + rest, Pow2(c.g - k));
    Pow2Monotone(c.l, k - w);
  }

  /** The code of a list of lengths that are not oversubscribed. */
  lemma CodeExists(b: seq<nat>, l: nat) returns (c: Code<Payload>)
    requires 1 <= l <= MaxLength(b) <= BMAX && !Oversubscribed(b)
    ensures CodeOf(c, b) && c.g == MaxLength(b) && c.l == l
    ensures Complete(b) ==> |c.pay| <= |b|
  {
    hide Pow2, KraftSum;
    var g := MaxLength(b);
    KraftAtMax(b, g);
    var y := Pow2(g) - EndCode(b, g);
    var cnt := seq(g + 1, k requires k >= 0 => Count(b, k) + if k == g then y else 0);
    c := Code(g, l, cnt, seq(OffsetOf(b, g) + cnt[g], _ => Invalid));
    CountPositive(b, g);
    CodeIsFull(c, b, y);
    OffsetBound(b, g + 1);
  }

  /** No table is too wide when the root's bits reach half the longest code, or when the code is
      complete and has fewer than 2^m symbols.  These are inflate's lists: literals have m = 9 and
      codes of at most 15 bits, distances m = 6 and at most 30 symbols, lengths m = 7 and at most
      7 bits. */
  lemma NoMisfit(b: seq<nat>, bits: nat, m: nat)
    requires 1 <= bits <= MaxLength(b) <= BMAX && !Oversubscribed(b)
    requires bits == MaxLength(b) || bits >= m
    requires MaxLength(b) <= 2 * m || (Complete(b) && |b| < Pow2(m))
    ensures !Misfit(b, MaxLength(b), bits)
  {
    hide Low, Pow2, KraftSum, EndCode, FirstCode, MaxLength;
    var g := MaxLength(b);
    if Misfit(b, g, bits) {
      var k: nat, val: nat, h: nat :| MisfitAt(b, g, bits, k, val, h);
      MulMonotone(1, h, bits);
      assert Mul(1, bits) == bits by { assert Mul(1, bits) == Mul(0, bits) + bits; }
      var c := CodeExists(b, bits);
      CodeAgrees(c, b, k);
      WideNeedsMany(c, k, val, h);
      if bits >= m { Pow2Monotone(m, bits); }
    }
  }

  /** Codes of lengths 1, 3, 3, 3, 3 looked up one bit at a time: complete, and misfit. */
  lemma MisfitExample()
    ensures var b := [1, 3, 3, 3, 3]; MaxLength(b) == 3 && Complete(b) && Misfit(b, 3, 1)
  {
    var b := [1, 3, 3, 3, 3];
    assert b[..4] == [1, 3, 3, 3] && [1, 3, 3, 3][..3] == [1, 3, 3] && [1, 3, 3][..2] == [1, 3] && [1, 3][..1] == [1]
      && [1][..0] == [];
    hide Count, FirstCode, KraftSum, MaxLength;
    ExampleKraft(b);
    ExampleCodes(b);
    assert Mul(1, 1) == 1 && Low(4, 2) == 0 && Pow2(3) == 8;
    assert MisfitAt(b, 3, 1, 3, 4, 1);
  }

  lemma ExampleKraft(b: seq<nat>)
    requires b == [1, 3, 3, 3, 3]
    requires b[..4] == [1, 3, 3, 3] && [1, 3, 3, 3][..3] == [1, 3, 3] && [1, 3, 3][..2] == [1, 3] && [1, 3][..1] == [1]
      && [1][..0] == []
    ensures MaxLength(b) == 3 && Complete(b)
  {
    hide Count;
    assert MaxLength([1]) == 1 && MaxLength([1, 3]) == 3 && MaxLength([1, 3, 3]) == 3;
    assert Pow2(13) == 8 * Pow2(10) && Pow2(15) == 4 * Pow2(13) && Pow2(16) == 8 * Pow2(13);
    assert KraftSum([1]) == 4 * Pow2(13);
    assert KraftSum([1, 3]) == 5 * Pow2(13);
    assert KraftSum([1, 3, 3]) == 6 * Pow2(13);
    assert KraftSum([1, 3, 3, 3]) == 7 * Pow2(13);
    assert KraftSum(b) == 8 * Pow2(13);
  }

  lemma ExampleCodes(b: seq<nat>)
    requires b == [1, 3, 3, 3, 3]
    requires b[..4] == [1, 3, 3, 3] && [1, 3, 3, 3][..3] == [1, 3, 3] && [1, 3, 3][..2] == [1, 3] && [1, 3][..1] == [1]
      && [1][..0] == []
    ensures FirstCode(b, 3) == 4
  {
    assert Count([1, 3], 1) == 1 && Count([1, 3, 3, 3], 1) == 1 && Count(b, 1) == 1;
    assert Count([1, 3], 2) == 0 && Count([1, 3, 3, 3], 2) == 0 && Count(b, 2) == 0;
    assert FirstCode(b, 2) == 2;
  }

  /** A string starts with the code of at most one symbol. */
  lemma PrefixFree(b: seq<nat>, i: nat, j: nat, str: Bits)
    requires MaxLength(b) <= BMAX && !Oversubscribed(b)
    requires Matches(b, i, str) && Matches(b, j, str)
    ensures i == j
  {
    hide Pow2, KraftSum, Position, Low, Mul;
    var c := CodeExists(b, MaxLength(b));
    var k := b[i];
    CodeAgrees(c, b, k);
    CountPrefix(b, i, k);
    var word := str[..k];
    var q := c.Offset(k) + BE(word) - c.First(k);
    assert c.IsWord(word, q);
    MatchIsWord(c, b, j, str, word, q);
    if i < j { SameRank(b, i, j); } else if j < i { SameRank(b, j, i); }
  }

  lemma SameRank(b: seq<nat>, i: nat, j: nat)
    requires i < j < |b| && b[i] == b[j]
    ensures Rank(b, i) < Rank(b, j)
  {
    assert b[..j][..i] == b[..i];
    CountPrefix(b[..j], i, b[i]);
  }

  /** With a complete code every long enough string starts with the code of some symbol. */
  lemma EveryStringMatches(b: seq<nat>, str: Bits) returns (i: nat)
    requires 1 <= MaxLength(b) <= BMAX && Complete(b) && |str| >= MaxLength(b)
    ensures Matches(b, i, str)
  {
    hide Low, KraftSum;
    var g := MaxLength(b);
    KraftAtMax(b, g);
    PositionBound(str[..g], g);
    i := FindMatch(b, str, g);
  }

  /** Below the end of the codes of up to k bits there is a match of at most k bits. */
  lemma {:induction false} FindMatch(b: seq<nat>, str: Bits, k: nat) returns (i: nat)
    requires 1 <= k <= |str| && BE(str[..k]) < EndCode(b, k)
    ensures Matches(b, i, str)
    decreases k
  {
    hide Pow2, Position;
    if BE(str[..k]) >= FirstCode(b, k) {
      i := SymbolOfRank(b, k, BE(str[..k]) - FirstCode(b, k));
    } else {
      var p := str[..k - 1];
      assert str[..k] == p + [str[k - 1]];
      BEAppend(p, str[k - 1]);
      i := FindMatch(b, str, k - 1);
    }
  }
}
