/** One step of huft_build at a time: opening a table, writing the cells of a codeword, moving
    to the next codeword and closing the tables it has left. */
module HuftSteps {
  import opened BitStrings
  import opened Huffman
  import opened HuftTables

  ghost function Top(u: seq<nat>): nat
    requires u != []
  {
    u[|u| - 1]
  }

  /** The codeword is being placed: it is one of the code's words. */
  ghost predicate Current(c: Code<Payload>, bits: Bits)
    requires c.Full()
  {
    1 <= |bits| <= c.g && c.First(|bits|) <= BE(bits) < c.End(|bits|)
  }

  /** A table the current codeword runs through is wide enough for it. */
  lemma WideEnough(c: Code<Payload>, n: Node, bits: Bits)
    requires c.Full() && Current(c, bits)
    requires |n.pre| + n.width <= c.g && Fits(c, n) && n.pre <= bits
    ensures n.width >= c.l || |bits| <= |n.pre| + n.width
  {
    var k := |bits|;
    if n.width < c.l && k > |n.pre| + n.width {
      c.WordPosition(bits, BE(bits) - c.First(k));
      c.EndPosMonotone(|n.pre| + n.width, k - 1);
      BEOfPrefix(n.pre, bits, c.g);
    }
  }

  /** The part of the line covered by a closed table is behind us. */
  lemma NoTableAhead(c: Code<Payload>, tabs: Tables, info: seq<Node>, u: seq<nat>, bits: Bits, pos: nat, t: nat)
    requires State(c, tabs, info, u, bits, pos) && t < |info|
    requires t !in u
    ensures |info[t].pre| <= c.g
    ensures Position(info[t].pre, c.g) < pos
    ensures !(info[t].pre <= bits)
    ensures forall q: Bits :: |info[t].pre + q| <= c.g ==> Position(info[t].pre + q, c.g) < pos
  {
    var pre := info[t].pre;
    assert NodeOK(c, info, t) && ClosedAt(c, info, t, pos);
    if pre <= bits { BEOfPrefix(pre, bits, c.g); }
    forall q: Bits | |pre + q| <= c.g
      ensures Position(pre + q, c.g) < pos
    {
      BEOfPrefix(pre, pre + q, c.g);
    }
  }

  ghost function Slot(c: Code<Payload>, n: Node, bits: Bits): Bits
    requires |n.pre| + c.l <= |bits|
  {
    bits[|n.pre|..|n.pre| + c.l] + if n.width > c.l then Zeros(n.width - c.l) else []
  }

  lemma SlotShape(c: Code<Payload>, n: Node, bits: Bits)
    requires |n.pre| + c.l <= |bits| && n.width >= c.l
    ensures var slot := Slot(c, n, bits);
            && |slot| == n.width && slot[..c.l] == bits[|n.pre|..|n.pre| + c.l]
            && LE(slot) == LE(slot[..c.l])
  {
    var a := bits[|n.pre|..|n.pre| + c.l];
    if n.width > c.l {
      LEPadded(a, Zeros(n.width - c.l));
    } else {
      assert Slot(c, n, bits) == a;
    }
    assert Slot(c, n, bits)[..c.l] == a;
  }

  lemma PrefixIndex(bits: Bits, w: nat, m: nat)
    requires w <= m <= |bits| && AllFalse(bits[m..])
    ensures Shr(LE(bits), w) == LE(bits[w..m])
  {
    LEShift(bits, w);
    assert bits[w..] == bits[w..m] + bits[m..];
    LEPadded(bits[w..m], bits[m..]);
  }

  lemma OpenChild(c: Code<Payload>, tabs: Tables, info: seq<Node>, u: seq<nat>, bits: Bits, pos: nat,
                  width: nat, fresh_: seq<Entry>, tabs': Tables, info': seq<Node>)
    requires State(c, tabs, info, u, bits, pos) && u != [] && Current(c, bits)
    requires |bits| > |info[Top(u)].pre| + c.l
    requires 1 <= width && |info[Top(u)].pre| + c.l + width <= c.g
    requires Pow2(width) <= |fresh_| && forall i :: 0 <= i < |fresh_| ==> fresh_[i] == Unset
    requires var top := Top(u); var slot := Slot(c, info[top], bits);
             && LE(slot) < |tabs[top]|
             && tabs' == tabs[top := tabs[top][LE(slot) := Link(c.l, width, |tabs|)]] + [fresh_]
             && info' == info + [Node(bits[..|info[top].pre| + c.l], width, top, slot)]
    requires Fits(c, info'[|info|])
    ensures State(c, tabs', info', u + [|info|], bits, pos)
  {
    hide Position, Pow2, LE, Mul, EntryOK;
    var top := Top(u);
    var n := info[top];
    var slot := Slot(c, n, bits);
    var w := |n.pre|;
    var m := info'[|info|];
    assert FitsAt(c, info, top);
    WideEnough(c, n, bits);
    assert NodeOK(c, info, top);
    SlotShape(c, n, bits);
    assert m.pre == n.pre + slot[..c.l];
    OpenChildCells(c, tabs, info, u, bits, pos, width, fresh_, tabs', info');
    OpenChildFilled(c, tabs, info, u, bits, pos, width, fresh_, tabs', info');
    OpenChildStack(c, info, u, bits, pos, m);
    forall t | 0 <= t < |info'|
      ensures FitsAt(c, info', t)
    {
      if t < |info| { assert FitsAt(c, info, t); }
    }
  }

  lemma OpenChildStack(c: Code<Payload>, info: seq<Node>, u: seq<nat>, bits: Bits, pos: nat, m: Node)
    requires StackOK(c, info, u) && u != [] && Closed(c, info, u, pos) && AtWord(c, info, u, bits)
    requires m.parent == Top(u) && |bits| > |info[Top(u)].pre| + c.l && m.pre == bits[..|info[Top(u)].pre| + c.l]
    requires c.l > 0
    ensures StackOK(c, info + [m], u + [|info|])
    ensures Closed(c, info + [m], u + [|info|], pos)
    ensures AtWord(c, info + [m], u + [|info|], bits)
  {
    var info', u' := info + [m], u + [|info|];
    assert LevelOK(c, info, u, |u| - 1);
    forall j | 0 <= j < |u'|
      ensures LevelOK(c, info', u', j)
    {
      if j < |u| { assert LevelOK(c, info, u, j); }
    }
    forall j | 0 < j < |u'|
      ensures ChildOf(info', u', j)
    {
      if j < |u| { assert ChildOf(info, u, j); }
    }
    forall t | 0 <= t < |info'| && t !in u'
      ensures ClosedAt(c, info', t, pos)
    {
      assert t != |info| by { assert u'[|u|] == |info|; }
      assert forall j :: 0 <= j < |u| ==> u'[j] == u[j];
      assert ClosedAt(c, info, t, pos);
    }
  }

  lemma OpenChildCells(c: Code<Payload>, tabs: Tables, info: seq<Node>, u: seq<nat>, bits: Bits, pos: nat,
                  width: nat, fresh_: seq<Entry>, tabs': Tables, info': seq<Node>)
    requires State(c, tabs, info, u, bits, pos) && u != []
    requires |bits| > |info[Top(u)].pre| + c.l
    requires 1 <= width && |info[Top(u)].pre| + c.l + width <= c.g
    requires Pow2(width) <= |fresh_| && forall i :: 0 <= i < |fresh_| ==> fresh_[i] == Unset
    requires var top := Top(u); var slot := Slot(c, info[top], bits);
             && LE(slot) < |tabs[top]| && |slot| == info[top].width && LE(slot) == LE(slot[..c.l])
             && slot[..c.l] == bits[|info[top].pre|..|info[top].pre| + c.l]
             && tabs' == tabs[top := tabs[top][LE(slot) := Link(c.l, width, |tabs|)]] + [fresh_]
             && info' == info + [Node(info[top].pre + slot[..c.l], width, top, slot)]
    ensures TablesOK(c, tabs', info')
    ensures forall t, p {:trigger At(tabs', t, p)} :: 0 <= t < |info| && |p| == info[t].width ==>
      At(tabs', t, p) == if t == Top(u) && p == Slot(c, info[t], bits) then Link(c.l, width, |tabs|) else At(tabs, t, p)
  {
    var top := Top(u);
    var slot := Slot(c, info[top], bits);
    var e := Link(c.l, width, |tabs|);
    CellsAfter(tabs, info, top, slot, e, fresh_, tabs');
    EntriesAfter(c, tabs, info, top, slot, info'[|info|], tabs');
    forall t | 0 <= t < |info'|
      ensures NodeOK(c, info', t)
    {
      if t < |info| { assert NodeOK(c, info, t); }
    }
    forall t | 1 <= t < |info'|
      ensures Hangs(c, tabs', info', t)
    {
      if t < |info| {
        assert Hangs(c, tabs, info, t);
        assert NodeOK(c, info, t);
        NoTwin(c, tabs, info, u, bits, pos, t);
      }
    }
  }

  /** No earlier table stands for the part of the current codeword that a new table is for. */
  lemma NoTwin(c: Code<Payload>, tabs: Tables, info: seq<Node>, u: seq<nat>, bits: Bits, pos: nat, t: nat)
    requires State(c, tabs, info, u, bits, pos) && u != []
    requires |bits| > |info[Top(u)].pre| + c.l
    requires t < |info|
    ensures info[t].pre != bits[..|info[Top(u)].pre| + c.l]
  {
    if t in u {
      var j :| 0 <= j < |u| && u[j] == t;
      StackPrefix(c, tabs, info, u, j, |u| - 1);
    } else {
      NoTableAhead(c, tabs, info, u, bits, pos, t);
    }
  }

  lemma EntriesAfter(c: Code<Payload>, tabs: Tables, info: seq<Node>, top: nat, slot: Bits, m: Node, tabs': Tables)
    requires |tabs| == |info| && |c.cnt| == c.g + 1 && top < |info| && m.parent == top && m.slot == slot
    requires forall t, p {:trigger At(tabs, t, p)} :: 0 <= t < |info| && |p| == info[t].width ==>
      EntryOK(c, info, t, p, At(tabs, t, p))
    requires forall t, p {:trigger At(tabs', t, p)} :: 0 <= t < |info| && |p| == info[t].width ==>
      At(tabs', t, p) == if t == top && p == slot then Link(c.l, m.width, |tabs|) else At(tabs, t, p)
    requires forall p :: At(tabs', |tabs|, p) == Unset
    ensures forall t, p {:trigger At(tabs', t, p)} :: 0 <= t < |info| + 1 && |p| == (info + [m])[t].width ==>
      EntryOK(c, info + [m], t, p, At(tabs', t, p))
  {
    var info' := info + [m];
    forall t, p | 0 <= t < |info'| && |p| == info'[t].width
      ensures EntryOK(c, info', t, p, At(tabs', t, p))
    {
      if t < |info| {
        EntryStays(c, info, info', t, p, At(tabs, t, p));
      }
    }
  }

  lemma EntryStays(c: Code<Payload>, info: seq<Node>, info': seq<Node>, t: nat, p: Bits, e: Entry)
    requires |info'| == |info| + 1 && info'[..|info|] == info
    requires t < |info| && |c.cnt| == c.g + 1 && EntryOK(c, info, t, p, e)
    ensures EntryOK(c, info', t, p, e)
  {
    assert forall i :: 0 <= i < |info| ==> info'[i] == info[i];
  }

  /** What is in the cells after linking a fresh table. */
  lemma CellsAfter(tabs: Tables, info: seq<Node>, top: nat, slot: Bits, e: Entry, fresh_: seq<Entry>, tabs': Tables)
    requires |tabs| == |info| && top < |info| && LE(slot) < |tabs[top]| && |slot| == info[top].width
    requires forall i :: 0 <= i < |fresh_| ==> fresh_[i] == Unset
    requires tabs' == tabs[top := tabs[top][LE(slot) := e]] + [fresh_]
    ensures forall t, p {:trigger At(tabs', t, p)} :: 0 <= t < |info| && |p| == info[t].width ==>
      At(tabs', t, p) == if t == top && p == slot then e else At(tabs, t, p)
    ensures forall p :: At(tabs', |tabs|, p) == Unset
  {
    forall t, p | 0 <= t < |info| && |p| == info[t].width
      ensures At(tabs', t, p) == if t == top && p == slot then e else At(tabs, t, p)
    {
      AtUpdate(tabs, top, LE(slot), e, t, p);
      if t == top && LE(p) == LE(slot) { LEInjective(p, slot); }
    }
  }

  lemma OpenChildFilled(c: Code<Payload>, tabs: Tables, info: seq<Node>, u: seq<nat>, bits: Bits, pos: nat,
                  width: nat, fresh_: seq<Entry>, tabs': Tables, info': seq<Node>)
    requires State(c, tabs, info, u, bits, pos) && u != []
    requires |bits| > |info[Top(u)].pre| + c.l
    requires |info'| == |info| + 1 && info'[..|info|] == info
    requires TablesOK(c, tabs', info')
    requires info'[|info|].pre == bits[..|info[Top(u)].pre| + c.l]
    requires forall t, p {:trigger At(tabs', t, p)} :: 0 <= t < |info| && |p| == info[t].width ==>
      At(tabs', t, p) == if t == Top(u) && p == Slot(c, info[t], bits) then Link(c.l, width, |tabs|) else At(tabs, t, p)
    ensures Filled(c, tabs', info', pos)
  {
    hide EntryOK, LE, Pow2;
    var m := info'[|info|];
    assert forall t :: 0 <= t < |info| ==> info'[t] == info[t];
    forall t, p | 0 <= t < |info'| && |p| == info'[t].width && At(tabs', t, p).Unset?
      ensures |info'[t].pre + p| <= c.g
      ensures Position(info'[t].pre + p, c.g) >= pos || Orphan(c, info', t, p)
    {
      assert NodeOK(c, info', t);
      if t < |info| {
        assert At(tabs, t, p).Unset?;
        if Orphan(c, info, t, p) {
          var t' :| 0 <= t' < |info| && info[t'].pre == info[t].pre + p[..c.l];
          assert info'[t'] == info[t'];
          assert Orphan(c, info', t, p);
        }
      } else {
        PositionConcat(m.pre, p, c.g);
        PositionConcat(m.pre, bits[|m.pre|..], c.g);
        assert bits == m.pre + bits[|m.pre|..];
        PositionAllFalse(bits[|m.pre|..], c.g - |m.pre|);
      }
    }
  }

  lemma OpenRoot(c: Code<Payload>, bits: Bits, pos: nat, fresh_: seq<Entry>)
    requires State(c, [], [], [], bits, pos)
    requires Pow2(c.l) <= |fresh_| && forall i :: 0 <= i < |fresh_| ==> fresh_[i] == Unset
    ensures State(c, [fresh_], [Node([], c.l, 0, [])], [0], bits, pos)
  {
    PositionAllFalse(bits, c.g);
    assert NodeOK(c, [Node([], c.l, 0, [])], 0);
  }

  /** Writing a codeword's cells: they tell the truth, and the line is covered up to the
      codeword's end. */
  lemma FillWord(c: Code<Payload>, tabs: Tables, info: seq<Node>, u: seq<nat>, bits: Bits, pos: nat, p0: nat,
          tabs': Tables)
    requires State(c, tabs, info, u, bits, pos) && u != [] && c.IsWord(bits, p0) && p0 < |c.pay|
    requires |info[Top(u)].pre| <= |bits| <= |info[Top(u)].pre| + c.l
    requires |tabs'| == |tabs| && forall t :: 0 <= t < |tabs| ==> |tabs'[t]| == |tabs[t]|
    requires forall t, p {:trigger At(tabs', t, p)} :: 0 <= t < |info| && |p| == info[t].width ==>
      At(tabs', t, p) == if t == Top(u) && bits[|info[t].pre|..] <= p
                         then Leaf(|bits| - |info[t].pre|, c.pay[p0]) else At(tabs, t, p)
    ensures TablesOK(c, tabs', info)
    ensures Filled(c, tabs', info, pos + Pow2(c.g - |bits|))
  {
    FillWordCells(c, tabs, info, u, bits, pos, p0, tabs');
    forall t, p | 0 <= t < |info| && |p| == info[t].width && At(tabs', t, p).Unset?
      ensures |info[t].pre + p| <= c.g
      ensures Position(info[t].pre + p, c.g) >= pos + Pow2(c.g - |bits|) || Orphan(c, info, t, p)
    {
      assert At(tabs, t, p).Unset?;
      assert NodeOK(c, info, t);
      if !Orphan(c, info, t, p) {
        StillAhead(c, tabs, info, u, bits, pos, t, p);
      }
    }
  }

  lemma FillWordCells(c: Code<Payload>, tabs: Tables, info: seq<Node>, u: seq<nat>, bits: Bits, pos: nat, p0: nat,
          tabs': Tables)
    requires State(c, tabs, info, u, bits, pos) && u != [] && c.IsWord(bits, p0) && p0 < |c.pay|
    requires |info[Top(u)].pre| <= |bits| <= |info[Top(u)].pre| + c.l
    requires |tabs'| == |tabs| && forall t :: 0 <= t < |tabs| ==> |tabs'[t]| == |tabs[t]|
    requires forall t, p {:trigger At(tabs', t, p)} :: 0 <= t < |info| && |p| == info[t].width ==>
      At(tabs', t, p) == if t == Top(u) && bits[|info[t].pre|..] <= p
                         then Leaf(|bits| - |info[t].pre|, c.pay[p0]) else At(tabs, t, p)
    ensures TablesOK(c, tabs', info)
  {
    var top := Top(u);
    var w := |info[top].pre|;
    forall t, p | 0 <= t < |info| && |p| == info[t].width
      ensures EntryOK(c, info, t, p, At(tabs', t, p))
    {
      assert EntryOK(c, info, t, p, At(tabs, t, p));
      if t == top && bits[w..] <= p {
        assert (info[top].pre + p)[..|bits|] == bits;
        assert c.IsWord((info[t].pre + p)[..w + (|bits| - w)], p0);
      }
    }
    forall t | 1 <= t < |info|
      ensures Hangs(c, tabs', info, t)
    {
      assert Hangs(c, tabs, info, t) && NodeOK(c, info, t);
      NotOverwritten(c, tabs, info, u, bits, pos, t);
    }
  }

  /** The cells of the current codeword hold no link. */
  lemma NotOverwritten(c: Code<Payload>, tabs: Tables, info: seq<Node>, u: seq<nat>, bits: Bits, pos: nat, t: nat)
    requires State(c, tabs, info, u, bits, pos) && u != [] && 1 <= t < |info|
    requires |info[Top(u)].pre| <= |bits| <= |info[Top(u)].pre| + c.l
    requires NodeOK(c, info, t)
    ensures info[t].parent == Top(u) ==> !(bits[|info[Top(u)].pre|..] <= info[t].slot)
  {
    var top := Top(u);
    var w := |info[top].pre|;
    if info[t].parent == top && bits[w..] <= info[t].slot {
      assert |info[t].pre| == w + c.l;
      if t in u {
        var j :| 0 <= j < |u| && u[j] == t;
        StackPrefix(c, tabs, info, u, j, |u| - 1);
      } else {
        assert bits <= info[t].pre by {
          assert bits == info[top].pre + bits[w..];
          assert bits[w..] <= info[t].slot[..c.l];
        }
        BEOfPrefix(bits, info[t].pre, c.g);
        NoTableAhead(c, tabs, info, u, bits, pos, t);
      }
    }
  }

  /** A cell that is still unset after the current codeword has been written lies after it. */
  lemma StillAhead(c: Code<Payload>, tabs: Tables, info: seq<Node>, u: seq<nat>, bits: Bits, pos: nat, t: nat, p: Bits)
    requires State(c, tabs, info, u, bits, pos) && u != [] && Current(c, bits)
    requires |info[Top(u)].pre| <= |bits| <= |info[Top(u)].pre| + c.l
    requires t < |info| && |p| == info[t].width && At(tabs, t, p).Unset? && !Orphan(c, info, t, p)
    requires |info[t].pre + p| <= c.g
    requires t == Top(u) ==> !(bits[|info[t].pre|..] <= p)
    ensures Position(info[t].pre + p, c.g) >= pos + Pow2(c.g - |bits|)
  {
    var f := info[t].pre + p;
    assert Position(f, c.g) >= pos;
    if t !in u {
      NoTableAhead(c, tabs, info, u, bits, pos, t);
    } else {
      var j :| 0 <= j < |u| && u[j] == t;
      NotOnPath(c, tabs, info, u, bits, pos, j, p);
      Disjoint(bits, f, c.g);
    }
  }

  /** An unset cell of an open table is not comparable with the current codeword. */
  lemma NotOnPath(c: Code<Payload>, tabs: Tables, info: seq<Node>, u: seq<nat>, bits: Bits, pos: nat, j: nat, p: Bits)
    requires State(c, tabs, info, u, bits, pos) && u != [] && Current(c, bits) && j < |u|
    requires |info[Top(u)].pre| <= |bits| <= |info[Top(u)].pre| + c.l
    requires |p| == info[u[j]].width && At(tabs, u[j], p).Unset? && !Orphan(c, info, u[j], p)
    requires j == |u| - 1 ==> !(bits[|info[Top(u)].pre|..] <= p)
    ensures !(bits <= info[u[j]].pre + p) && !(info[u[j]].pre + p <= bits)
  {
    var n := info[u[j]];
    StackPrefix(c, tabs, info, u, j, |u| - 1);
    assert NodeOK(c, info, u[j]);
    if j == |u| - 1 {
      assert FitsAt(c, info, u[j]);
      WideEnough(c, n, bits);
      NotComparable(n.pre, p, bits);
    } else {
      assert ChildOf(info, u, j + 1) && NodeOK(c, info, u[j + 1]);
      assert Hangs(c, tabs, info, u[j + 1]);
      StackPrefix(c, tabs, info, u, j + 1, |u| - 1);
      BesideLink(c, tabs, info, u[j], u[j + 1], p, bits);
    }
  }

  lemma BesideLink(c: Code<Payload>, tabs: Tables, info: seq<Node>, t: nat, t': nat, p: Bits, bits: Bits)
    requires t < t' < |info| && NodeOK(c, info, t) && NodeOK(c, info, t') && info[t'].parent == t
    requires Hangs(c, tabs, info, t') && info[t'].pre <= bits
    requires |p| == info[t].width && At(tabs, t, p).Unset? && !Orphan(c, info, t, p)
    ensures !(bits <= info[t].pre + p) && !(info[t].pre + p <= bits)
  {
    var n, m := info[t], info[t'];
    if bits <= n.pre + p || n.pre + p <= bits {
      SamePath(n.pre, p, m.slot, c.l, bits);
    }
  }

  lemma NotComparable(pre: Bits, p: Bits, bits: Bits)
    requires pre <= bits && |bits| <= |pre| + |p| && !(bits[|pre|..] <= p)
    ensures !(bits <= pre + p) && !(pre + p <= bits)
  {
  }

  lemma SamePath(pre: Bits, p: Bits, slot: Bits, l: nat, bits: Bits)
    requires l <= |p| && l <= |slot| && pre + slot[..l] <= bits
    requires bits <= pre + p || pre + p <= bits
    ensures p[..l] == slot[..l]
    ensures |p| == |slot| == l ==> p == slot
  {
    forall i | 0 <= i < l
      ensures p[i] == slot[i]
    {
      assert (pre + slot[..l])[|pre| + i] == bits[|pre| + i] == (pre + p)[|pre| + i];
    }
  }
}
