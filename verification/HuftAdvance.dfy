/** Moving from one codeword to the next: the backwards increment, closing finished tables,
    lengthening the codeword, and how wide a new table must be. */
module HuftAdvance {
  import opened BitStrings
  import opened Huffman
  import opened HuftTables
  import opened HuftSteps

  /** After the increment, while finished tables are being closed: the codeword first differs
      from the last one at bit m, which is below the bits of the top table, and is zero after it. */
  ghost predicate Backing(c: Code<Payload>, tabs: Tables, info: seq<Node>, u: seq<nat>,
                          last: Bits, bits: Bits, m: nat, pos: nat) {
    && TablesOK(c, tabs, info) && Filled(c, tabs, info, pos) && AllFit(c, info)
    && StackOK(c, info, u) && u != []
    && |bits| == |last| <= c.g && pos == Position(bits, c.g) && Position(last, c.g) < pos
    && Closed(c, info, u, pos)
    && info[Top(u)].pre <= last
    && m < |bits| && m < |info[Top(u)].pre| + c.l
    && last[..m] == bits[..m]
    && (forall i :: m < i < |bits| ==> !bits[i])
  }

  lemma NextPosition(c: Code<Payload>, bits: Bits)
    requires |bits| <= c.g && BE(bits) + 1 < Pow2(|bits|)
    ensures Position(Successor(bits), c.g) == Position(bits, c.g) + Pow2(c.g - |bits|)
  {
    SuccessorBE(bits);
    PositionNext(bits, Successor(bits), c.g);
  }

  lemma PositionNext(p: Bits, q: Bits, g: nat)
    requires |p| == |q| <= g && BE(q) == BE(p) + 1
    ensures Position(q, g) == Position(p, g) + Pow2(g - |p|)
  {
    PositionScale(p, g);
    PositionScale(q, g);
  }

  lemma PositionPadded(bits: Bits, w: nat, g: nat)
    requires w <= |bits| <= g && AllFalse(bits[w..])
    ensures Position(bits[..w], g) == Position(bits, g)
  {
    assert bits == bits[..w] + bits[w..];
    PositionConcat(bits[..w], bits[w..], g);
    PositionAllFalse(bits[w..], g - w);
  }

  /** From the current codeword to the end of its length. */
  lemma ToEndPos(c: Code<Payload>, bits: Bits)
    requires c.Full() && Current(c, bits)
    ensures Position(bits, c.g) + Mul(c.End(|bits|) - BE(bits), Pow2(c.g - |bits|)) == c.EndPos(|bits|)
  {
    PositionScale(bits, c.g);
    MulSum(BE(bits), c.End(|bits|) - BE(bits), Pow2(c.g - |bits|));
  }

  lemma MulSplit(a: nat, b: nat, c: nat)
    ensures a >= b ==> Mul(a, c) == Mul(b, c) + Mul(a - b, c)
    ensures a <= b ==> Mul(a, c) <= Mul(b, c)
  {
    if a >= b { MulSum(b, a - b, c); } else { MulMonotone(a, b, c); }
  }

  lemma StartBack(c: Code<Payload>, tabs: Tables, info: seq<Node>, u: seq<nat>, last: Bits, pos: nat, tabs': Tables)
      returns (m: nat)
    requires State(c, tabs, info, u, last, pos) && u != [] && BE(last) + 1 < Pow2(|last|)
    requires |info[Top(u)].pre| <= |last| <= |info[Top(u)].pre| + c.l
    requires TablesOK(c, tabs', info) && Filled(c, tabs', info, pos + Pow2(c.g - |last|))
    ensures Backing(c, tabs', info, u, last, Successor(last), m, pos + Pow2(c.g - |last|))
  {
    NextPosition(c, last);
    m := SuccessorCarry(last);
    var bits := Successor(last);
    assert bits[..m] == last[..m];
    forall t | 0 <= t < |info| && t !in u
      ensures ClosedAt(c, info, t, pos + Pow2(c.g - |last|))
    {
      assert ClosedAt(c, info, t, pos);
    }
    assert forall i :: m < i < |bits| ==> bits[i] == Zeros(|last| - m - 1)[i - m - 1];
  }

  /** A table whose prefix the new codeword does not have is finished. */
  lemma PopOne(c: Code<Payload>, tabs: Tables, info: seq<Node>, u: seq<nat>, last: Bits, bits: Bits, m: nat, pos: nat)
    requires Backing(c, tabs, info, u, last, bits, m, pos)
    requires !(info[Top(u)].pre <= bits)
    ensures |u| > 1 && Backing(c, tabs, info, u[..|u| - 1], last, bits, m, pos)
  {
    var top := Top(u);
    var pre := info[top].pre;
    var u' := u[..|u| - 1];
    assert LevelOK(c, info, u, 0) && LevelOK(c, info, u, |u| - 1);
    assert ChildOf(info, u, |u| - 1) && NodeOK(c, info, top);
    assert u'[|u'| - 1] == info[top].parent;
    assert info[info[top].parent].pre <= pre && |pre| == |info[info[top].parent].pre| + c.l;
    CarryBelow(pre, last, bits, m, c.g);
    PopClosed(c, info, u, pos);
  }

  lemma CarryBelow(pre: Bits, last: Bits, bits: Bits, m: nat, g: nat)
    requires pre <= last && |last| == |bits| <= g && m < |bits| && last[..m] == bits[..m] && !(pre <= bits)
    requires Position(last, g) < Position(bits, g)
    ensures m < |pre|
    ensures Position(pre, g) + Pow2(g - |pre|) <= Position(bits, g)
  {
    if |pre| <= m { PrefixKept(pre, last, bits, m); }
    BEOfPrefix(pre, last, g);
    DyadicAfter(pre, bits, g);
  }

  lemma PrefixKept(pre: Bits, last: Bits, bits: Bits, m: nat)
    requires pre <= last && |pre| <= m <= |last| == |bits| && last[..m] == bits[..m]
    ensures pre <= bits
  {
    assert pre == last[..m][..|pre|];
  }

  lemma PopClosed(c: Code<Payload>, info: seq<Node>, u: seq<nat>, pos: nat)
    requires |u| > 1 && StackOK(c, info, u) && Closed(c, info, u, pos)
    requires var pre := info[Top(u)].pre; |pre| <= c.g && Position(pre, c.g) + Pow2(c.g - |pre|) <= pos
    ensures StackOK(c, info, u[..|u| - 1]) && Closed(c, info, u[..|u| - 1], pos)
  {
    var top := Top(u);
    var u' := u[..|u| - 1];
    forall j | 0 < j < |u'|
      ensures ChildOf(info, u', j)
    {
      assert ChildOf(info, u, j);
    }
    forall j | 0 <= j < |u'|
      ensures LevelOK(c, info, u', j)
    {
      assert LevelOK(c, info, u, j);
    }
    forall t | 0 <= t < |info| && t !in u'
      ensures ClosedAt(c, info, t, pos)
    {
      if t != top {
        assert t !in u by { assert u == u' + [top]; }
        assert ClosedAt(c, info, t, pos);
      }
    }
  }

  lemma StopBack(c: Code<Payload>, tabs: Tables, info: seq<Node>, u: seq<nat>, last: Bits, bits: Bits, m: nat, pos: nat)
    requires Backing(c, tabs, info, u, last, bits, m, pos)
    requires info[Top(u)].pre <= bits
    ensures State(c, tabs, info, u, bits, pos)
    ensures Behind(c, info, u, pos)
  {
    forall j | 0 <= j < |u|
      ensures |info[u[j]].pre| <= c.g && Position(info[u[j]].pre, c.g) < pos
    {
      StackPrefix(c, tabs, info, u, j, |u| - 1);
      BEOfPrefix(info[u[j]].pre, last, c.g);
    }
  }

  /** Every open table was opened for an earlier codeword. */
  ghost predicate Behind(c: Code<Payload>, info: seq<Node>, u: seq<nat>, pos: nat) {
    forall j :: 0 <= j < |u| ==> u[j] < |info| && |info[u[j]].pre| <= c.g && Position(info[u[j]].pre, c.g) < pos
  }

  /** Going to longer codewords appends a zero bit and stays at the same point. */
  lemma Lengthen(c: Code<Payload>, tabs: Tables, info: seq<Node>, u: seq<nat>, bits: Bits, pos: nat)
    requires State(c, tabs, info, u, bits, pos) && |bits| < c.g
    ensures State(c, tabs, info, u, bits + [false], pos)
  {
    PositionConcat(bits, [false], c.g);
    PositionAllFalse([false], c.g - |bits|);
    if u != [] {
      assert info[Top(u)].pre <= bits + [false];
    }
  }

  // ---- the width of a new table (zBoot/inflate.c:220-235) ----

  /** `f` points of the table's 2^(g-w) are left over after all codewords of up to w + j bits. */
  ghost predicate LeftOver(c: Code<Payload>, pre: Bits, j: nat, f: nat) {
    && c.Full() && |pre| + j <= c.g
    && Position(pre, c.g) + Pow2(c.g - |pre|) == c.EndPos(|pre| + j) + Mul(f, Pow2(c.g - |pre| - j))
  }

  /** At the table's first codeword, of k bits: 2^(k-w) patterns less the codewords left of this length. */
  lemma WordStart(c: Code<Payload>, bits: Bits, w: nat, left: nat)
    requires c.Full() && Current(c, bits) && w <= |bits| && AllFalse(bits[w..])
    requires left == c.End(|bits|) - BE(bits)
    ensures Position(bits[..w], c.g) + Mul(left, Pow2(c.g - |bits|)) == c.EndPos(|bits|)
  {
    PositionPadded(bits, w, c.g);
    ToEndPos(c, bits);
  }

  lemma LeftOverStart(c: Code<Payload>, pre: Bits, k: nat, left: nat)
    requires c.Full() && |pre| <= k <= c.g
    requires Position(pre, c.g) + Mul(left, Pow2(c.g - k)) == c.EndPos(k)
    ensures Pow2(k - |pre|) >= left ==> LeftOver(c, pre, k - |pre|, Pow2(k - |pre|) - left)
    ensures Pow2(k - |pre|) <= left ==> Position(pre, c.g) + Pow2(c.g - |pre|) <= c.EndPos(k)
  {
    Leftover(k - |pre|, c.g - k, left);
    assert c.g - |pre| - (k - |pre|) == c.g - k;
  }

  lemma Leftover(m: nat, n: nat, left: nat)
    ensures Pow2(m) >= left ==> Pow2(m + n) == Mul(left, Pow2(n)) + Mul(Pow2(m) - left, Pow2(n))
    ensures Pow2(m) <= left ==> Pow2(m + n) <= Mul(left, Pow2(n))
  {
    MulPow2(m, n);
    MulSplit(Pow2(m), left, Pow2(n));
  }

  /** One more bit: twice the patterns, less the codewords of that length. */
  lemma LeftOverStep(c: Code<Payload>, pre: Bits, j: nat, f: nat)
    requires LeftOver(c, pre, j, f) && |pre| + j < c.g
    ensures var more := c.cnt[|pre| + j + 1];
            if 2 * f > more then LeftOver(c, pre, j + 1, 2 * f - more)
            else Position(pre, c.g) + Pow2(c.g - |pre|) <= c.EndPos(|pre| + j + 1)
  {
    hide Position;
    var k := |pre| + j + 1;
    var more := c.cnt[k];
    c.EndPosStep(k);
    MulDouble(f, Pow2(c.g - k));
    MulSplit(2 * f, more, Pow2(c.g - k));
  }

  /** The longest codewords leave nothing over. */
  lemma LeftOverEnd(c: Code<Payload>, pre: Bits)
    requires c.Full() && |pre| <= c.g
    ensures Position(pre, c.g) + Pow2(c.g - |pre|) <= c.EndPos(c.g)
  {
    PositionBound(pre, c.g);
    MulPow2(c.g, 0);
  }

  // ---- when a table comes out too wide ----

  /** The codeword `val` of k bits is the first one below some table boundary past the root, and
      needs more than l further bits, or exactly l when the k-bit codewords run out before they
      fill the table and longer ones follow. */
  ghost predicate TooWide(c: Code<Payload>, k: nat, val: nat)
    requires c.Full() && k <= c.g
  {
    exists h: nat :: TooWideAt(c, k, val, h)
  }

  ghost predicate TooWideAt(c: Code<Payload>, k: nat, val: nat, h: nat)
    requires c.Full() && k <= c.g
  {
    var w := Mul(h, c.l);
    && 1 <= h && w + c.l <= k
    && Low(val, k - w) == 0
    && (w + c.l < k || (k < c.g && Pow2(c.l) > c.End(k) - val))
  }

  /** The low l bits of a codeword's number are its last l bits. */
  lemma {:induction false} TrailingZeros(p: Bits, l: nat)
    requires l <= |p|
    ensures AllFalse(p[|p| - l..]) <==> Low(BE(p), l) == 0
  {
    if l > 0 {
      var q := p[..|p| - 1];
      assert p == q + [p[|p| - 1]];
      BEAppend(q, p[|p| - 1]);
      TrailingZeros(q, l - 1);
      assert BE(p) / 2 == BE(q);
      assert p[|p| - l..] == q[|q| - (l - 1)..] + [p[|p| - 1]];
      if AllFalse(p[|p| - l..]) {
        assert p[|p| - l..][l - 1] == p[|p| - 1];
        assert q[|q| - (l - 1)..] == p[|p| - l..][..l - 1];
      }
    }
  }

}
