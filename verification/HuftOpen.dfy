/** Opening the tables a codeword needs (zBoot/inflate.c:214-265) and placing one codeword
    (zBoot/inflate.c:268-299). */
module HuftOpen {
  import opened BitStrings
  import opened Huffman
  import opened HuftTables
  import opened HuftSteps
  import opened HuftAdvance
  import opened HuftLoops

  /** x holds, for each open table, the bits that lead to it. */
  ghost predicate CodeStack(info: seq<Node>, u: seq<nat>, x: seq<nat>) {
    |x| == |u| && forall j :: 0 <= j < |u| ==> u[j] < |info| && x[j] == LE(info[u[j]].pre)
  }

  /** The bits before the top table: l * h. */
  ghost function Depth(c: Code<Payload>, info: seq<Node>, u: seq<nat>): int
    requires StackOK(c, info, u)
  {
    if u == [] then 0 - c.l else |info[Top(u)].pre|
  }

  lemma RootWide(c: Code<Payload>, j: nat)
    requires c.Full() && 1 <= j <= c.g && Fits(c, Node([], j, 0, []))
    ensures j >= c.l
  {
    if j < c.l {
      assert c.RoomAfter(j);
      MulPow2(j, c.g - j);
      MulSum(c.End(j), Pow2(j) - c.End(j), Pow2(c.g - j));
      MulPositive(Pow2(j) - c.End(j), Pow2(c.g - j));
    }
  }

  lemma MulPositive(a: nat, b: nat)
    requires a > 0 && b > 0
    ensures Mul(a, b) > 0
  {
  }

  lemma RoomyNew(c: Code<Payload>, bits: Bits, w: nat, j: nat)
    requires c.Full() && Current(c, bits) && w < |bits| && AllFalse(bits[w..])
    requires w + c.l < |bits| || (w + c.l == |bits| < c.g && Pow2(c.l) > c.End(|bits|) - BE(bits))
    ensures RoomyNode(c, Node(bits[..w], j, 0, []))
  {
    var k, pre := |bits|, bits[..w];
    if w + c.l < k {
      PositionPadded(bits, w, c.g);
      c.WordPosition(bits, BE(bits) - c.First(k));
      c.EndPosMonotone(w + c.l, k - 1);
    } else {
      var left := c.End(k) - BE(bits);
      WordStart(c, bits, w, left);
      LeftOverStart(c, pre, k, left);
      MulPositive(Pow2(k - w) - left, Pow2(c.g - k));
    }
  }

  lemma RoomyStays(c: Code<Payload>, info: seq<Node>, m: Node)
    requires Roomy(c, info) && (m.width > c.l && info != [] ==> RoomyNode(c, m))
    ensures Roomy(c, info + [m])
    ensures Oversized(c, info + [m]) <==> Oversized(c, info) || (info != [] && m.width > c.l)
  {
    var info' := info + [m];
    if Oversized(c, info) {
      var t :| 1 <= t < |info| && info[t].width > c.l;
      assert info'[t].width > c.l;
    }
    if info != [] && m.width > c.l { assert info'[|info|].width > c.l; }
  }

  lemma CodeStackPush(info: seq<Node>, u: seq<nat>, x: seq<nat>, m: Node, i: nat)
    requires CodeStack(info, u, x) && i == LE(m.pre)
    ensures CodeStack(info + [m], u + [|info|], x + [i])
  {
  }

  lemma SlotInRange(c: Code<Payload>, tabs: Tables, info: seq<Node>, u: seq<nat>, bits: Bits, pos: nat, i: nat)
    requires State(c, tabs, info, u, bits, pos) && u != [] && Current(c, bits)
    requires |bits| > |info[Top(u)].pre| + c.l && i == LE(bits)
    ensures var n := info[Top(u)];
            && Shr(i, |n.pre|) == LE(Slot(c, n, bits)) < |tabs[Top(u)]|
            && i == LE(bits[..|n.pre| + c.l])
  {
    var n := info[Top(u)];
    var w := |n.pre|;
    assert FitsAt(c, info, Top(u));
    WideEnough(c, n, bits);
    SlotShape(c, n, bits);
    assert AllFalse(bits[w + c.l..]);
    PrefixIndex(bits, w, w + c.l);
    LEBound(Slot(c, n, bits));
    assert bits == bits[..w + c.l] + bits[w + c.l..];
    LEPadded(bits[..w + c.l], bits[w + c.l..]);
  }

  /** One turn of the loop at zBoot/inflate.c:214: allocate a table and link it in. */
  method OpenTable(cnt: seq<nat>, k: nat, w0: int, g: nat, l: nat, a: nat, tabs: Tables, u: seq<nat>, x: seq<nat>,
          i: nat,
                   ghost c: Code<Payload>, ghost info: seq<Node>, ghost bits: Bits, ghost pos: nat)
      returns (tabs': Tables, u': seq<nat>, x': seq<nat>, w: nat, z: nat, ghost info': seq<Node>, ghost wide: bool)
    requires State(c, tabs, info, u, bits, pos) && CodeStack(info, u, x) && Roomy(c, info)
    requires c.cnt == cnt && c.g == g && c.l == l
    requires Current(c, bits) && |bits| == k && i == LE(bits) && a + 1 == c.End(k) - BE(bits)
    requires w0 == Depth(c, info, u) && k > w0 + l
    ensures State(c, tabs', info', u', bits, pos) && CodeStack(info', u', x') && Roomy(c, info')
    ensures |u'| == |u| + 1 && w == w0 + l == Depth(c, info', u') && AllFalse(bits[w..])
    ensures Top(u') == |tabs'| - 1 && z == |tabs'[|tabs'| - 1]|
    ensures Oversized(c, info') <==> Oversized(c, info) || wide
    ensures WideBelow(c, k, BE(bits), |u'|) <==> WideBelow(c, k, BE(bits), |u|) || wide
  {
    hide Position, Pow2, Mul, Filled, Closed, TooWideAt, WideBelow, AllFit;
    w := w0 + l;
    wide := u != [] && (w + l < k || (w + l == k < g && Pow2(l) > a + 1));
    assert AllFalse(bits[w..]);
    DepthIsLevel(c, info, u, w0);
    WideBelowStep(c, bits, |u|, a);
    var j := TableWidth(cnt, k, w, g, l, a, c, bits);
    z := Pow2(j);
    if u == [] {
      tabs', info' := RootTable(j, c, bits, pos);
      u', x' := [0], [0];
    } else {
      tabs', info' := ChildTable(j, w, l, tabs, u[|u| - 1], i, c, info, u, bits, pos);
      u', x' := u + [|tabs|], x + [i];
      CodeStackPush(info, u, x, info'[|info|], i);
    }
  }

  method RootTable(j: nat, ghost c: Code<Payload>, ghost bits: Bits, ghost pos: nat)
      returns (tabs': Tables, ghost info': seq<Node>)
    requires State(c, [], [], [], bits, pos) && 1 <= j <= c.g && Fits(c, Node(bits[..0], j, 0, []))
    ensures State(c, tabs', info', [0], bits, pos)
    ensures |tabs'| == 1 && |tabs'[0]| == Pow2(j)
    ensures info' == [Node([], c.l, 0, [])]
  {
    assert bits[..0] == [];
    RootWide(c, j);
    Pow2Monotone(c.l, j);
    tabs' := [seq(Pow2(j), _ => Unset)];
    info' := [Node([], c.l, 0, [])];
    OpenRoot(c, bits, pos, tabs'[0]);
  }

  method ChildTable(j: nat, w: nat, l: nat, tabs: Tables, top: nat, i: nat,
                    ghost c: Code<Payload>, ghost info: seq<Node>, ghost u: seq<nat>, ghost bits: Bits, ghost pos: nat)
      returns (tabs': Tables, ghost info': seq<Node>)
    requires State(c, tabs, info, u, bits, pos) && u != [] && Roomy(c, info) && top == Top(u) && c.l == l
    requires Current(c, bits) && i == LE(bits) && w == |info[top].pre| + l && |bits| > w && AllFalse(bits[w..])
    requires 1 <= j && w + j <= c.g && Fits(c, Node(bits[..w], j, 0, []))
    requires j > l ==> w + l < |bits| || (w + l == |bits| < c.g && Pow2(l) > c.End(|bits|) - BE(bits))
    ensures State(c, tabs', info', u + [|info|], bits, pos) && Roomy(c, info')
    ensures |tabs'| == |info'| == |tabs| + 1 && |tabs'[|tabs|]| == Pow2(j)
    ensures info' == info + [info'[|info|]] && info'[|info|].pre == bits[..w] && i == LE(bits[..w])
    ensures Oversized(c, info') <==> Oversized(c, info) || j > l
  {
    hide Position, Pow2, Mul, LE, Filled, Closed, AtWord;
    var cells := seq(Pow2(j), _ => Unset);
    SlotInRange(c, tabs, info, u, bits, pos, i);
    tabs' := tabs[top := tabs[top][Shr(i, w - l) := Link(l, j, |tabs|)]] + [cells];
    ghost var m := Node(bits[..w], j, top, Slot(c, info[top], bits));
    info' := info + [m];
    OpenChild(c, tabs, info, u, bits, pos, j, cells, tabs', info');
    RoomyChild(c, info, bits, w, m);
  }

  lemma RoomyChild(c: Code<Payload>, info: seq<Node>, bits: Bits, w: nat, m: Node)
    requires c.Full() && Current(c, bits) && w < |bits| && AllFalse(bits[w..]) && Roomy(c, info) && m.pre == bits[..w]
      && info != []
    requires m.width > c.l ==> w + c.l < |bits| || (w + c.l == |bits| < c.g && Pow2(c.l) > c.End(|bits|) - BE(bits))
    ensures Roomy(c, info + [m])
    ensures Oversized(c, info + [m]) <==> Oversized(c, info) || m.width > c.l
  {
    if m.width > c.l { RoomyNew(c, bits, w, m.width); }
    RoomyStays(c, info, m);
  }

  /** The top table is open for an earlier codeword, so the current one is not all zeros past its
      boundary. */
  lemma NotBelowTop(c: Code<Payload>, tabs: Tables, info: seq<Node>, u: seq<nat>, bits: Bits, pos: nat, h: nat)
    requires State(c, tabs, info, u, bits, pos) && Behind(c, info, u, pos) && Current(c, bits)
    requires h < |u|
    ensures !TooWideAt(c, |bits|, BE(bits), h)
  {
    var k, w := |bits|, Mul(h, c.l);
    StackPrefix(c, tabs, info, u, h, |u| - 1);
    assert LevelOK(c, info, u, h);
    assert info[u[h]].pre == bits[..w];
    if TooWideAt(c, k, BE(bits), h) {
      TrailingZeros(bits, k - w);
      PositionPadded(bits, w, c.g);
    }
  }

  /** The loop at zBoot/inflate.c:214: tables up to the level the codeword needs. */
  method OpenTables(cnt: seq<nat>, k: nat, w0: int, g: nat, l: nat, a: nat, tabs0: Tables, u0: seq<nat>, x0: seq<nat>,
          i: nat, z0: nat,
                    ghost c: Code<Payload>, ghost info0: seq<Node>, ghost bits: Bits, ghost pos: nat)
      returns (tabs: Tables, u: seq<nat>, x: seq<nat>, w: int, z: nat, ghost info: seq<Node>)
    requires State(c, tabs0, info0, u0, bits, pos) && CodeStack(info0, u0, x0) && Roomy(c, info0)
      && Behind(c, info0, u0, pos)
    requires c.cnt == cnt && c.g == g && c.l == l
    requires Current(c, bits) && |bits| == k && i == LE(bits) && a + 1 == c.End(k) - BE(bits)
    requires w0 == Depth(c, info0, u0)
    requires u0 != [] ==> k > w0 && (k > w0 + l || (Top(u0) == |tabs0| - 1 && z0 == |tabs0[|tabs0| - 1]|))
    ensures State(c, tabs, info, u, bits, pos) && CodeStack(info, u, x) && Roomy(c, info)
    ensures u != [] && w == Depth(c, info, u) && w < k <= w + l
    ensures Top(u) == |tabs| - 1 && z == |tabs[|tabs| - 1]|
    ensures Oversized(c, info) <==> Oversized(c, info0) || TooWide(c, k, BE(bits))
  {
    hide Position, Pow2, LE, Filled, Closed, TooWideAt, AllFit;
    tabs, u, x, w, z, info := tabs0, u0, x0, w0, z0, info0;
    forall h: nat | h < |u|
      ensures !TooWideAt(c, k, BE(bits), h)
    {
      NotBelowTop(c, tabs, info, u, bits, pos, h);
    }
    while k > w + l
      invariant State(c, tabs, info, u, bits, pos) && CodeStack(info, u, x) && Roomy(c, info)
      invariant w == Depth(c, info, u)
      invariant u == [] ==> u0 == []
      invariant u != [] ==> w < k && (k > w + l || (Top(u) == |tabs| - 1 && z == |tabs[|tabs| - 1]|))
      invariant Oversized(c, info) <==> Oversized(c, info0) || WideBelow(c, k, BE(bits), |u|)
      decreases k - w
    {
      ghost var wide;
      tabs, u, x, w, z, info, wide := OpenTable(cnt, k, w, g, l, a, tabs, u, x, i, c, info, bits, pos);
    }
    DepthIsLevel(c, info, u, w);
    WideBelowAll(c, k, BE(bits), |u|);
  }

  /** One of the first n table boundaries makes a table too wide. */
  ghost predicate WideBelow(c: Code<Payload>, k: nat, val: nat, n: nat)
    requires c.Full() && k <= c.g
  {
    exists h: nat :: h < n && TooWideAt(c, k, val, h)
  }

  lemma WideBelowStep(c: Code<Payload>, bits: Bits, h: nat, a: nat)
    requires c.Full() && Current(c, bits) && a + 1 == c.End(|bits|) - BE(bits)
    requires Mul(h, c.l) < |bits|
    ensures AllFalse(bits[Mul(h, c.l)..]) ==>
      (WideBelow(c, |bits|, BE(bits), h + 1) <==>
        (WideBelow(c, |bits|, BE(bits), h)
         || (h > 0 && (Mul(h, c.l) + c.l < |bits| || (Mul(h, c.l) + c.l == |bits| < c.g && Pow2(c.l) > a + 1)))))
  {
    var k, val, w := |bits|, BE(bits), Mul(h, c.l);
    TrailingZeros(bits, k - w);
    if AllFalse(bits[w..]) {
      assert TooWideAt(c, k, val, h) <==> h > 0 && (w + c.l < k || (w + c.l == k < c.g && Pow2(c.l) > a + 1));
    }
  }

  lemma WideBelowAll(c: Code<Payload>, k: nat, val: nat, n: nat)
    requires c.Full() && k <= c.g && k <= Mul(n, c.l)
    ensures WideBelow(c, k, val, n) <==> TooWide(c, k, val)
  {
    if TooWide(c, k, val) {
      var h: nat :| TooWideAt(c, k, val, h);
      if h >= n { MulMonotone(n, h, c.l); }
    }
  }

  lemma DepthIsLevel(c: Code<Payload>, info: seq<Node>, u: seq<nat>, w: int)
    requires StackOK(c, info, u) && w == Depth(c, info, u)
    ensures w + c.l == Mul(|u|, c.l)
  {
    if u != [] { assert LevelOK(c, info, u, |u| - 1); }
  }
}
