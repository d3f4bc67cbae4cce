/** Placing one codeword: open the tables it needs, write its cells, step to the next codeword and
    close the tables it has left (zBoot/inflate.c:209-299). */
module HuftPlace {
  import opened BitStrings
  import opened Huffman
  import opened HuftTables
  import opened HuftSteps
  import opened HuftAdvance
  import opened HuftLoops
  import opened HuftOpen

  /** Between two codewords.  The table pointer q and the size z belong to the newest table, so
      either that is the top one or the next codeword needs a new table. */
  ghost predicate Ready(c: Code<Payload>, tabs: Tables, info: seq<Node>, u: seq<nat>, x: seq<nat>, bits: Bits, pos: nat,
          w: int, z: nat)
  {
    && State(c, tabs, info, u, bits, pos) && CodeStack(info, u, x) && Roomy(c, info) && Behind(c, info, u, pos)
    && w == Depth(c, info, u)
    && (u != [] ==> |bits| > w && (|bits| > w + c.l || (Top(u) == |tabs| - 1 && z == |tabs[|tabs| - 1]|)))
  }

  /** After the last codeword. */
  ghost predicate Finished(c: Code<Payload>, tabs: Tables, info: seq<Node>) {
    TablesOK(c, tabs, info) && Filled(c, tabs, info, Pow2(c.g)) && Roomy(c, info) && info != []
  }

  lemma CellOfPrefix(p: Bits, b: Bits)
    requires |b| <= |p|
    ensures Low(LE(p), |b|) == LE(b) <==> b <= p
  {
    LEShift(p, |b|);
    if LE(p[..|b|]) == LE(b) { LEInjective(p[..|b|], b); }
    if b <= p { assert b == p[..|b|]; }
  }

  /** Write the current codeword's cells in the newest table. */
  method FillTop(tabs: Tables, q: nat, i: nat, w: nat, k: nat, r: Entry,
                 ghost c: Code<Payload>, ghost info: seq<Node>, ghost u: seq<nat>, ghost bits: Bits, ghost pos: nat,
                 ghost p0: nat)
      returns (tabs': Tables)
    requires State(c, tabs, info, u, bits, pos) && u != [] && Top(u) == q && w == |info[q].pre|
    requires c.IsWord(bits, p0) && p0 < |c.pay| && |bits| == k && w <= k <= w + c.l && i == LE(bits)
    requires r == Leaf(k - w, c.pay[p0])
    ensures |tabs'| == |tabs| && |tabs'[q]| == |tabs[q]|
    ensures TablesOK(c, tabs', info) && Filled(c, tabs', info, pos + Pow2(c.g - k))
  {
    LEShift(bits, w);
    LEBound(bits[w..]);
    var cells := FillCells(tabs[q], Shr(i, w), k - w, r);
    tabs' := tabs[q := cells];
    CellsFilled(c, tabs, info, u, bits, pos, r, tabs');
    FillWord(c, tabs, info, u, bits, pos, p0, tabs');
  }

  lemma CellsFilled(c: Code<Payload>, tabs: Tables, info: seq<Node>, u: seq<nat>, bits: Bits, pos: nat, r: Entry,
          tabs': Tables)
    requires State(c, tabs, info, u, bits, pos) && u != [] && Current(c, bits)
    requires |info[Top(u)].pre| <= |bits| <= |info[Top(u)].pre| + c.l
    requires |tabs'| == |tabs| && forall t :: 0 <= t < |tabs| && t != Top(u) ==> tabs'[t] == tabs[t]
    requires var cells, cells' := tabs[Top(u)], tabs'[Top(u)]; var b := bits[|info[Top(u)].pre|..];
             && |cells'| == |cells|
             && forall j :: 0 <= j < |cells| ==> cells'[j] == if Low(j, |b|) == LE(b) then r else cells[j]
    ensures forall t, p {:trigger At(tabs', t, p)} :: 0 <= t < |info| && |p| == info[t].width ==>
      At(tabs', t, p) == if t == Top(u) && bits[|info[t].pre|..] <= p then r else At(tabs, t, p)
  {
    var n := info[Top(u)];
    assert FitsAt(c, info, Top(u));
    WideEnough(c, n, bits);
    forall t, p | 0 <= t < |info| && |p| == info[t].width
      ensures At(tabs', t, p) == if t == Top(u) && bits[|info[t].pre|..] <= p then r else At(tabs, t, p)
    {
      if t == Top(u) {
        LEBound(p);
        CellOfPrefix(p, bits[|n.pre|..]);
      }
    }
  }

  /** The last codeword ends at the end of the line. */
  lemma LastWord(c: Code<Payload>, bits: Bits)
    requires |bits| <= c.g && BE(bits) + 1 == Pow2(|bits|)
    ensures Position(bits, c.g) + Pow2(c.g - |bits|) == Pow2(c.g)
  {
    PositionScale(bits, c.g);
    MulPow2(|bits|, c.g - |bits|);
  }

  /** Close finished tables: the loop at zBoot/inflate.c:295. */
  method BackUp(u0: seq<nat>, x0: seq<nat>, w0: nat, l: nat, i: nat,
                ghost c: Code<Payload>, ghost tabs: Tables, ghost info: seq<Node>, ghost last: Bits, ghost bits: Bits,
                ghost m: nat, ghost pos: nat)
      returns (u: seq<nat>, x: seq<nat>, w: nat)
    requires StackOK(c, info, u0) && CodeStack(info, u0, x0) && u0 != [] && w0 == |info[Top(u0)].pre| && c.l == l
      && i == LE(bits)
    requires Backing(c, tabs, info, u0, last, bits, m, pos) || AllFalse(bits)
    requires TablesOK(c, tabs, info) && w0 < |bits|
    ensures Backing(c, tabs, info, u0, last, bits, m, pos) ==>
      && u != [] && State(c, tabs, info, u, bits, pos) && CodeStack(info, u, x) && Behind(c, info, u, pos)
      && w == |info[Top(u)].pre| < |bits| && (u == u0 || |bits| > w + l)
  {
    u, x, w := u0, x0, w0;
    ghost var more := Backing(c, tabs, info, u0, last, bits, m, pos);
    while Low(i, w) != x[|x| - 1]
      invariant StackOK(c, info, u) && CodeStack(info, u, x) && u != [] && w == |info[Top(u)].pre| < |bits|
      invariant more ==> Backing(c, tabs, info, u, last, bits, m, pos)
      invariant u == u0 || |bits| > w + l
      decreases |u|
    {
      LEShift(bits, w);
      if more {
        assert bits[..w] != info[Top(u)].pre;
        PopOne(c, tabs, info, u, last, bits, m, pos);
      } else {
        PopFree(c, tabs, info, u, i, bits, w);
      }
      PopDepth(c, tabs, info, u, x);
      u, x := u[..|u| - 1], x[..|x| - 1];
      w := w - l;
    }
    if more {
      LEShift(bits, w);
      LEInjective(bits[..w], info[Top(u)].pre);
      StopBack(c, tabs, info, u, last, bits, m, pos);
    }
  }

  lemma PopDepth(c: Code<Payload>, tabs: Tables, info: seq<Node>, u: seq<nat>, x: seq<nat>)
    requires TablesOK(c, tabs, info) && StackOK(c, info, u) && CodeStack(info, u, x) && |u| > 1
    ensures var u' := u[..|u| - 1]; u'[|u'| - 1] < |info| && |info[u'[|u'| - 1]].pre| + c.l == |info[Top(u)].pre|
    ensures StackOK(c, info, u[..|u| - 1]) && CodeStack(info, u[..|u| - 1], x[..|x| - 1])
  {
    var u' := u[..|u| - 1];
    assert ChildOf(info, u, |u| - 1) && NodeOK(c, info, Top(u));
    forall j | 0 <= j < |u'| ensures LevelOK(c, info, u', j) { assert LevelOK(c, info, u, j); }
    forall j | 0 < j < |u'| ensures ChildOf(info, u', j) { assert ChildOf(info, u, j); }
  }

  lemma PopFree(c: Code<Payload>, tabs: Tables, info: seq<Node>, u: seq<nat>, i: nat, bits: Bits, w: nat)
    requires TablesOK(c, tabs, info) && StackOK(c, info, u) && u != [] && w == |info[Top(u)].pre| <= |bits|
    requires Low(i, w) != LE(info[Top(u)].pre)
    ensures |u| > 1
  {
    assert LevelOK(c, info, u, 0);
  }

  method PlaceWord(cnt: seq<nat>, k: nat, g: nat, l: nat, a: nat, i0: nat, v: Payload,
                   tabs0: Tables, u0: seq<nat>, x0: seq<nat>, w0: int, z0: nat,
                   ghost c: Code<Payload>, ghost info0: seq<Node>, ghost bits: Bits, ghost pos: nat, ghost p0: nat)
      returns (tabs: Tables, u: seq<nat>, x: seq<nat>, w: int, z: nat, i: nat, ghost info: seq<Node>)
    requires Ready(c, tabs0, info0, u0, x0, bits, pos, w0, z0)
    requires c.cnt == cnt && c.g == g && c.l == l
    requires |bits| == k && c.IsWord(bits, p0) && p0 < |c.pay| && v == c.pay[p0]
    requires i0 == LE(bits) && a + 1 == c.End(k) - BE(bits)
    ensures i == LE(Successor(bits))
    ensures Oversized(c, info) <==> Oversized(c, info0) || TooWide(c, k, BE(bits))
    ensures BE(bits) + 1 < Pow2(k) ==> Ready(c, tabs, info, u, x, Successor(bits), pos + Pow2(g - k), w, z)
    ensures BE(bits) + 1 == Pow2(k) ==> Finished(c, tabs, info)
  {
    hide Position, LE, Filled, Closed, AllFit;
    tabs, u, x, w, z, info := OpenTables(cnt, k, w0, g, l, a, tabs0, u0, x0, i0, z0, c, info0, bits, pos);
    ghost var before := tabs;
    var r := Leaf(k - w, v);
    tabs := FillTop(tabs, |tabs| - 1, i0, w, k, r, c, info, u, bits, pos, p0);
    i := BackIncrement(i0, k, bits);
    if BE(bits) + 1 != Pow2(k) { PositionBound(bits, k); }
    u, x, w := NextWord(u, x, w, k, l, i, before, tabs, c, info, bits, pos);
  }

  /** From a codeword whose cells are written to the next one. */
  method NextWord(u0: seq<nat>, x0: seq<nat>, w0: nat, k: nat, l: nat, i: nat,
                  ghost before: Tables, ghost tabs: Tables, ghost c: Code<Payload>, ghost info: seq<Node>,
                  ghost bits: Bits, ghost pos: nat)
      returns (u: seq<nat>, x: seq<nat>, w: nat)
    requires State(c, before, info, u0, bits, pos) && CodeStack(info, u0, x0) && Roomy(c, info)
    requires u0 != [] && Top(u0) == |tabs| - 1 && w0 == |info[Top(u0)].pre| < k == |bits| <= w0 + l && c.l == l
    requires TablesOK(c, tabs, info) && Filled(c, tabs, info, pos + Pow2(c.g - k))
    requires i == LE(Successor(bits)) && BE(bits) + 1 <= Pow2(k)
    ensures BE(bits) + 1 < Pow2(k) ==>
      Ready(c, tabs, info, u, x, Successor(bits), pos + Pow2(c.g - k), w, |tabs[|tabs| - 1]|)
    ensures BE(bits) + 1 == Pow2(k) ==> Finished(c, tabs, info)
  {
    ghost var m: nat := 0;
    if BE(bits) + 1 < Pow2(k) {
      m := StartBack(c, before, info, u0, bits, pos, tabs);
    } else {
      SuccessorBE(bits);
      LastWord(c, bits);
    }
    u, x, w := BackUp(u0, x0, w0, l, i, c, tabs, info, bits, Successor(bits), m, pos + Pow2(c.g - k));
  }

  // ---- which codewords make a table too wide ----

  /** Some codeword before the codeword `lim` of k bits makes a table too wide. */
  ghost predicate WideBefore(c: Code<Payload>, k: nat, lim: nat)
    requires c.Full() && k <= c.g
  {
    exists k': nat, v: nat {:trigger TooWide(c, k', v)} ::
      && 1 <= k' <= k && c.First(k') <= v < c.End(k') && (k' < k || v < lim) && TooWide(c, k', v)
  }

  lemma WideBeforeLength(c: Code<Payload>, k: nat)
    requires c.Full() && 1 <= k <= c.g
    ensures WideBefore(c, k, c.End(k)) <==>
      WideBefore(c, k, c.First(k)) || exists val: nat :: c.First(k) <= val < c.End(k) && TooWide(c, k, val)
  {
  }

  lemma WideBeforeNext(c: Code<Payload>, k: nat)
    requires c.Full() && 1 <= k < c.g
    ensures WideBefore(c, k + 1, c.First(k + 1)) <==> WideBefore(c, k, c.End(k))
  {
  }

  lemma WideBeforeStart(c: Code<Payload>, k: nat)
    requires c.Full() && 1 <= k <= c.g && forall j :: 1 <= j < k ==> c.cnt[j] == 0
    ensures !WideBefore(c, k, 0) && c.First(k) == 0 && c.Offset(k) == 0
  {
    NothingBefore(c, k);
  }

  lemma {:induction false} NothingBefore(c: Code<Payload>, k: nat)
    requires k < |c.cnt| && forall j :: 1 <= j < k ==> c.cnt[j] == 0
    ensures c.First(k) == 0 && c.Offset(k) == 0
  {
    if k > 1 { NothingBefore(c, k - 1); }
  }
}
