/** Walking finished tables: when every table has its proper width the walk is prefix decoding,
    and when one is oversized some bit string runs into a cell that was never written. */
module HuftWalk {
  import opened BitStrings
  import opened Huffman
  import opened HuftTables

  lemma LookupStep(tabs: Tables, t: nat, width: nat, s: Bits, off: nat, p: Bits)
    requires t < |tabs| && off + width <= |s| && p == s[off..off + width]
    ensures At(tabs, t, p).Unset? ==> Lookup(tabs, t, width, s, off) == Stuck
    ensures At(tabs, t, p).Leaf? ==> Lookup(tabs, t, width, s, off) == Decoded(At(tabs, t, p).p, off + At(tabs, t, p).b)
    ensures At(tabs, t, p).Link? && t < At(tabs, t, p).t < |tabs| ==>
      Lookup(tabs, t, width, s, off) == Lookup(tabs, At(tabs, t, p).t, At(tabs, t, p).e, s, off + At(tabs, t, p).b)
  {
  }

  /** A string that has a prefix, cut after it. */
  lemma Piece(pre: Bits, s: Bits, width: nat) returns (p: Bits)
    requires pre <= s && |pre| + width <= |s|
    ensures p == s[|pre|..|pre| + width] && |p| == width && pre + p <= s
  {
    p := s[|pre|..|pre| + width];
  }

  ghost predicate NoHole(tabs: Tables, info: seq<Node>) {
    forall t, p {:trigger At(tabs, t, p)} :: 0 <= t < |info| && |p| == info[t].width ==> !At(tabs, t, p).Unset?
  }

  lemma FilledHasNoHole(c: Code<Payload>, tabs: Tables, info: seq<Node>)
    requires TablesOK(c, tabs, info) && Filled(c, tabs, info, Pow2(c.g)) && !Oversized(c, info)
    ensures NoHole(tabs, info)
  {
    forall t, p | 0 <= t < |info| && |p| == info[t].width
      ensures !At(tabs, t, p).Unset?
    {
      assert NodeOK(c, info, t);
      PositionBound(info[t].pre + p, c.g);
    }
  }

  /** With no hole, every string of at least g bits decodes to the codeword it starts with. */
  lemma {:induction false} WalkDecodes(c: Code<Payload>, tabs: Tables, info: seq<Node>, t: nat, s: Bits)
      returns (word: Bits, q: nat)
    requires TablesOK(c, tabs, info) && NoHole(tabs, info)
    requires t < |info| && |s| >= c.g && info[t].pre <= s
    ensures word <= s && c.IsWord(word, q) && q < |c.pay|
    ensures Lookup(tabs, t, info[t].width, s, |info[t].pre|) == Decoded(c.pay[q], |word|)
    decreases |info| - t
  {
    hide Lookup, LE, Position, Pow2;
    var n := info[t];
    assert NodeOK(c, info, t);
    var p := Piece(n.pre, s, n.width);
    LookupStep(tabs, t, n.width, s, |n.pre|, p);
    match At(tabs, t, p) {
      case Leaf(b, v) =>
        word, q := LeafDecodes(c, info, t, p, s, b, v);
      case Link(b, w, t') =>
        assert NodeOK(c, info, t');
        LinkDescends(c, info, t, p, s, t');
        word, q := WalkDecodes(c, tabs, info, t', s);
    }
  }

  lemma LeafDecodes(c: Code<Payload>, info: seq<Node>, t: nat, p: Bits, s: Bits, b: nat, v: Payload)
      returns (word: Bits, q: nat)
    requires t < |info| && |c.cnt| == c.g + 1 && EntryOK(c, info, t, p, Leaf(b, v))
    requires info[t].pre + p <= s
    ensures word <= s && c.IsWord(word, q) && q < |c.pay| && v == c.pay[q] && |word| == |info[t].pre| + b
  {
    var f := info[t].pre + p;
    q :| c.IsWord(f[..|info[t].pre| + b], q) && q < |c.pay| && v == c.pay[q];
    word := f[..|info[t].pre| + b];
  }

  lemma LinkDescends(c: Code<Payload>, info: seq<Node>, t: nat, p: Bits, s: Bits, t': nat)
    requires t < t' < |info| && NodeOK(c, info, t') && info[t'].parent == t && info[t'].slot == p
    requires info[t].pre + p <= s
    ensures info[t'].pre <= s && |info[t'].pre| == |info[t].pre| + c.l
  {
    assert info[t'].pre == (info[t].pre + p)[..|info[t].pre| + c.l];
  }

  /** The walk passes through every table whose prefix the string has, as far as the first
      oversized one. */
  lemma {:induction false} WalkReaches(c: Code<Payload>, tabs: Tables, info: seq<Node>, t: nat, s: Bits)
    requires TablesOK(c, tabs, info)
    requires t < |info| && |s| >= c.g && info[t].pre <= s
    requires forall t' :: 1 <= t' < t ==> info[t'].width <= c.l
    ensures Lookup(tabs, 0, c.l, s, 0) == Lookup(tabs, t, info[t].width, s, |info[t].pre|)
    decreases t
  {
    hide Lookup, LE, Position, Pow2, EntryOK;
    assert NodeOK(c, info, t);
    if t > 0 {
      var a := info[t].parent;
      assert NodeOK(c, info, a);
      assert Hangs(c, tabs, info, t);
      WalkReaches(c, tabs, info, a, s);
      var p := Piece(info[a].pre, s, info[a].width);
      SameSlot(info[a].pre, info[t].slot, p, c.l, s);
      LookupStep(tabs, a, info[a].width, s, |info[a].pre|, p);
    }
  }

  lemma SameSlot(pre: Bits, slot: Bits, p: Bits, l: nat, s: Bits)
    requires |slot| == |p| == l && pre + slot[..l] <= s && pre + p <= s
    ensures slot == p
  {
    assert slot[..l] == slot;
    assert pre + slot == s[..|pre| + l] == pre + p;
    assert slot == (pre + slot)[|pre|..];
  }

  /** With an oversized table, some string of g bits gets stuck. */
  lemma WalkSticks(c: Code<Payload>, tabs: Tables, info: seq<Node>) returns (s: Bits)
    requires TablesOK(c, tabs, info) && Roomy(c, info) && Oversized(c, info)
    ensures |s| == c.g && Lookup(tabs, 0, c.l, s, 0) == Stuck
  {
    hide Lookup, LE, At, Position, Pow2, EntryOK;
    var t: nat :| 1 <= t < |info| && info[t].width > c.l;
    t := FirstOversized(c, info, t);
    var n := info[t];
    assert NodeOK(c, info, t);
    assert RoomyNode(c, n);
    var y;
    y, s := StickyString(c, n);
    WalkReaches(c, tabs, info, t, s);
    var p := Piece(n.pre, s, n.width);
    CutAt(n.pre, p, y, s);
    StuckHere(c, tabs, info, t, p, y);
    LookupStep(tabs, t, n.width, s, |n.pre|, p);
  }

  /** A string that starts with no codeword of at most l bits beyond the table's prefix, and whose
      next bit is one. */
  lemma StickyString(c: Code<Payload>, n: Node) returns (y: Bits, s: Bits)
    requires c.Full() && RoomyNode(c, n)
    ensures |s| == c.g && n.pre <= s && |y| == |n.pre| + c.l < c.g
    ensures y <= s && s[|y|]
    ensures Position(y, c.g) >= c.EndPos(|y|)
  {
    var k := |n.pre| + c.l;
    if c.EndPos(k) <= Position(n.pre, c.g) {
      y := n.pre + Zeros(c.l);
      PositionConcat(n.pre, Zeros(c.l), c.g);
    } else {
      assert c.RoomAfter(k);
      y := FromBE(c.End(k), k);
      BEFromBE(c.End(k), k);
      PositionScale(y, c.g);
      Dyadic(n.pre, y, c.g);
    }
    s := y + [true] + Zeros(c.g - k - 1);
  }

  lemma CutAt(pre: Bits, p: Bits, y: Bits, s: Bits)
    requires pre + p <= s && y <= s && |pre| <= |y| < |pre| + |p|
    ensures (pre + p)[..|y|] == y && p[|y| - |pre|] == s[|y|]
  {
    assert (pre + p)[|y|] == s[|y|];
  }

  lemma {:induction false} HighBit(p: Bits, l: nat)
    requires l < |p| && LE(p) == LE(p[..l])
    ensures !p[l]
  {
    if l > 0 {
      assert p[..l][1..] == p[1..][..l - 1];
      HighBit(p[1..], l - 1);
    }
  }

  lemma LinkInLowerHalf(c: Code<Payload>, tabs: Tables, info: seq<Node>, t: nat, p: Bits)
    requires TablesOK(c, tabs, info) && t < |info| && |p| == info[t].width > c.l
    ensures At(tabs, t, p).Link? ==> !p[c.l]
  {
    var e := At(tabs, t, p);
    if e.Link? {
      assert NodeOK(c, info, e.t);
      HighBit(p, c.l);
    }
  }

  lemma StuckHere(c: Code<Payload>, tabs: Tables, info: seq<Node>, t: nat, p: Bits, y: Bits)
    requires TablesOK(c, tabs, info) && 1 <= t < |info| && |p| == info[t].width > c.l
    requires |y| == |info[t].pre| + c.l < c.g && (info[t].pre + p)[..|y|] == y && p[c.l]
    requires Position(y, c.g) >= c.EndPos(|y|)
    ensures At(tabs, t, p).Unset?
  {
    var n := info[t];
    var e := At(tabs, t, p);
    assert EntryOK(c, info, t, p, e);
    if e.Leaf? {
      var q: nat :| c.IsWord((n.pre + p)[..|n.pre| + e.b], q);
      assert (n.pre + p)[..|n.pre| + e.b] == y[..|n.pre| + e.b];
      NoWordHere(c, y, y[..|n.pre| + e.b], q);
    }
    LinkInLowerHalf(c, tabs, info, t, p);
  }

  /** The strings from End(k) on start with no codeword of k bits or fewer. */
  lemma NoWordHere(c: Code<Payload>, y: Bits, word: Bits, q: nat)
    requires c.Full() && |y| <= c.g && |word| <= |y|
    requires |y| < |c.cnt| && Position(y, c.g) >= c.EndPos(|y|)
    ensures !(word <= y && c.IsWord(word, q))
  {
    if word <= y && c.IsWord(word, q) {
      c.WordInterval(word, q);
      c.EndPosMonotone(|word|, |y|);
      Dyadic(word, y, c.g);
    }
  }

  lemma {:induction false} FirstOversized(c: Code<Payload>, info: seq<Node>, t: nat) returns (t0: nat)
    requires 1 <= t < |info| && info[t].width > c.l
    ensures 1 <= t0 < |info| && info[t0].width > c.l
    ensures forall t' :: 1 <= t' < t0 ==> info[t'].width <= c.l
    decreases t
  {
    if t' :| 1 <= t' < t && info[t'].width > c.l {
      t0 := FirstOversized(c, info, t');
    } else {
      t0 := t;
    }
  }

  function FromBE(n: nat, k: nat): (p: Bits)
    ensures |p| == k
  {
    if k == 0 then [] else FromBE(n / 2, k - 1) + [n % 2 == 1]
  }

  lemma {:induction false} BEFromBE(n: nat, k: nat)
    requires n < Pow2(k)
    ensures BE(FromBE(n, k)) == n
  {
    if k > 0 {
      BEFromBE(n / 2, k - 1);
      BEAppend(FromBE(n / 2, k - 1), n % 2 == 1);
    }
  }

  // ---- what a reader of the tables may rely on ----

  /** From table t, reached after `off` bits and looked up with `width` bits: entries use no more bits
      than they were looked up with, and links lead on to sound tables. */
  ghost predicate Sound(tabs: Tables, t: nat, off: nat, width: nat)
    decreases |tabs| - t
  {
    && t < |tabs| && 1 <= width && off + width <= 16
    && forall p {:trigger At(tabs, t, p)} :: |p| == width ==> SoundEntry(tabs, t, off, width, At(tabs, t, p))
  }

  ghost predicate SoundEntry(tabs: Tables, t: nat, off: nat, width: nat, e: Entry)
    requires t < |tabs|
    decreases |tabs| - t, 0
  {
    match e
    case Unset => true
    case Leaf(b, _) => b <= width && off + b >= 1
    case Link(b, w, t') => b <= width && t < t' < |tabs| && Sound(tabs, t', off + b, w)
  }

  lemma {:induction false} TablesSound(c: Code<Payload>, tabs: Tables, info: seq<Node>, t: nat)
    requires TablesOK(c, tabs, info) && t < |info| && c.g <= 16
    ensures Sound(tabs, t, |info[t].pre|, info[t].width)
    decreases |info| - t
  {
    hide LE, Position, Pow2, At;
    assert NodeOK(c, info, t);
    var w := info[t].width;
    forall p | |p| == w
      ensures SoundEntry(tabs, t, |info[t].pre|, w, At(tabs, t, p))
    {
      var e := At(tabs, t, p);
      assert EntryOK(c, info, t, p, e);
      if e.Link? {
        assert NodeOK(c, info, e.t);
        TablesSound(c, tabs, info, e.t);
      } else if e.Leaf? {
        LeafUses(c, info, t, p, e.b, e.p);
      }
    }
  }

  lemma LeafUses(c: Code<Payload>, info: seq<Node>, t: nat, p: Bits, b: nat, v: Payload)
    requires t < |info| && |c.cnt| == c.g + 1 && EntryOK(c, info, t, p, Leaf(b, v))
    ensures 1 <= |info[t].pre| + b
  {
  }

  /** A table other than the root lies at least l bits deep. */
  lemma BelowRoot(c: Code<Payload>, tabs: Tables, info: seq<Node>, t: nat)
    requires TablesOK(c, tabs, info) && 1 <= t < |info|
    ensures c.l < c.g
  {
    assert NodeOK(c, info, t);
  }

  /** With a root table for the longest codeword there is no second table. */
  lemma OneTable(c: Code<Payload>, tabs: Tables, info: seq<Node>)
    requires TablesOK(c, tabs, info) && c.l == c.g
    ensures |tabs| <= 1
  {
    if |tabs| > 1 { BelowRoot(c, tabs, info, 1); }
  }
}
