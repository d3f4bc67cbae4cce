/** The linked lookup tables that huft_build makes (zBoot/inflate.c:194-303) and how
    inflate_codes walks them (zBoot/inflate.c:359-368).  `Unset` is a table cell that was
    allocated and never written.  A table pointer is the index of the table in allocation
    order. */
module HuftTables {
  import opened BitStrings
  import opened Huffman

  datatype Payload = Value(e: nat, n: nat) | Invalid

  datatype Entry =
    | Unset
    | Leaf(b: nat, p: Payload)
    | Link(b: nat, e: nat, t: nat)

  type Tables = seq<seq<Entry>>

  datatype Outcome = Decoded(p: Payload, used: nat) | Stuck

  /** Follow the tables from table t, which is indexed by `width` bits, at bit `off` of s. */
  function Lookup(tabs: Tables, t: nat, width: nat, s: Bits, off: nat): Outcome
    requires t < |tabs|
    decreases |tabs| - t
  {
    if off + width > |s| then Stuck
    else match At(tabs, t, s[off..off + width])
      case Unset => Stuck
      case Leaf(b, p) => Decoded(p, off + b)
      case Link(b, e, t') => if t < t' < |tabs| then Lookup(tabs, t', e, s, off + b) else Stuck
  }

  function At(tabs: Tables, t: nat, p: Bits): Entry {
    if t < |tabs| && LE(p) < |tabs[t]| then tabs[t][LE(p)] else Unset
  }

  /** What a table is for: the strings that start with `pre`, indexed by the next `width` bits.
      It hangs from cell `slot` of table `parent`. */
  datatype Node = Node(pre: Bits, width: nat, parent: nat, slot: Bits)

  ghost predicate NodeOK(c: Code<Payload>, info: seq<Node>, t: nat)
    requires t < |info|
  {
    var n := info[t];
    && 1 <= n.width && |n.pre| + n.width <= c.g
    && (t == 0 ==> n.pre == [] && n.width == c.l)
    && (t > 0 ==>
          && n.parent < t
          && |n.slot| == info[n.parent].width >= c.l
          && n.pre == info[n.parent].pre + n.slot[..c.l]
          && LE(n.slot) == LE(n.slot[..c.l]))
  }

  ghost predicate EntryOK(c: Code<Payload>, info: seq<Node>, t: nat, p: Bits, e: Entry)
    requires t < |info| && |c.cnt| == c.g + 1
  {
    match e
    case Unset => true
    case Leaf(b, v) =>
      && b <= |p| && b <= c.l
      && exists q: nat :: c.IsWord((info[t].pre + p)[..|info[t].pre| + b], q) && q < |c.pay| && v == c.pay[q]
    case Link(b, e, t') =>
      && b == c.l && t < t' < |info| && e == info[t'].width
      && info[t'].parent == t && info[t'].slot == p
  }

  /** Every cell tells the truth, and every table hangs from its parent. */
  ghost predicate TablesOK(c: Code<Payload>, tabs: Tables, info: seq<Node>) {
    && c.Full()
    && |tabs| == |info|
    && (forall t {:trigger NodeOK(c, info, t)} :: 0 <= t < |info| ==> NodeOK(c, info, t))
    && (forall t {:trigger |tabs[t]|} :: 0 <= t < |info| ==> Pow2(info[t].width) <= |tabs[t]|)
    && (forall t, p {:trigger At(tabs, t, p)} :: 0 <= t < |info| && |p| == info[t].width ==>
          EntryOK(c, info, t, p, At(tabs, t, p)))
    && (forall t {:trigger Hangs(c, tabs, info, t)} :: 1 <= t < |info| ==> Hangs(c, tabs, info, t))
  }

  ghost predicate Hangs(c: Code<Payload>, tabs: Tables, info: seq<Node>, t: nat)
    requires t < |info|
  {
    At(tabs, info[t].parent, info[t].slot) == Link(c.l, info[t].width, t)
  }

  /** Cells of an oversized table that lie above a link: no write ever reaches them. */
  ghost predicate Orphan(c: Code<Payload>, info: seq<Node>, t: nat, p: Bits)
    requires t < |info|
  {
    && info[t].width > c.l && info[t].width == |p|
    && exists t' :: 0 <= t' < |info| && info[t'].pre == info[t].pre + p[..c.l]
  }

  /** Only strings at or after `pos` still meet an unset cell. */
  ghost predicate Filled(c: Code<Payload>, tabs: Tables, info: seq<Node>, pos: nat)
    requires TablesOK(c, tabs, info)
  {
    forall t, p {:trigger At(tabs, t, p)} :: 0 <= t < |info| && |p| == info[t].width && At(tabs, t, p).Unset? ==>
      |info[t].pre + p| <= c.g && (Position(info[t].pre + p, c.g) >= pos || Orphan(c, info, t, p))
  }

  /** The open tables form a chain from the root, one for each `l` bits of the current codeword. */
  ghost predicate StackOK(c: Code<Payload>, info: seq<Node>, u: seq<nat>) {
    && (|u| > 0 ==> u[0] == 0)
    && (forall j :: 0 <= j < |u| ==> u[j] < |info|)
    && (forall j {:trigger LevelOK(c, info, u, j)} :: 0 <= j < |u| ==> LevelOK(c, info, u, j))
    && (forall j {:trigger ChildOf(info, u, j)} :: 0 < j < |u| ==> ChildOf(info, u, j))
  }

  ghost predicate LevelOK(c: Code<Payload>, info: seq<Node>, u: seq<nat>, j: nat)
    requires j < |u| && u[j] < |info|
  {
    |info[u[j]].pre| == Mul(j, c.l)
  }

  ghost predicate ChildOf(info: seq<Node>, u: seq<nat>, j: nat)
    requires 0 < j < |u| && u[j] < |info|
  {
    u[j] > 0 && info[u[j]].parent == u[j - 1]
  }

  /** Tables that are not open lie entirely before `pos`. */
  ghost predicate Closed(c: Code<Payload>, info: seq<Node>, u: seq<nat>, pos: nat) {
    forall t {:trigger ClosedAt(c, info, t, pos)} :: 0 <= t < |info| && t !in u ==> ClosedAt(c, info, t, pos)
  }

  ghost predicate ClosedAt(c: Code<Payload>, info: seq<Node>, t: nat, pos: nat)
    requires t < |info|
  {
    |info[t].pre| <= c.g && Position(info[t].pre, c.g) + Pow2(c.g - |info[t].pre|) <= pos
  }

  /** A table narrower than l bits is wide enough for every codeword it must hold. */
  ghost predicate Fits(c: Code<Payload>, n: Node)
    requires c.Full() && |n.pre| + n.width <= c.g
  {
    n.width >= c.l || Position(n.pre, c.g) + Pow2(c.g - |n.pre|) <= c.EndPos(|n.pre| + n.width)
  }

  ghost predicate FitsAt(c: Code<Payload>, info: seq<Node>, t: nat)
    requires c.Full() && t < |info|
  {
    |info[t].pre| + info[t].width <= c.g && Fits(c, info[t])
  }

  ghost predicate AllFit(c: Code<Payload>, info: seq<Node>)
    requires c.Full()
  {
    forall t {:trigger FitsAt(c, info, t)} :: 0 <= t < |info| ==> FitsAt(c, info, t)
  }

  /** The current codeword runs through the open tables and is zero from the first bit that
      needs a new table. */
  ghost predicate AtWord(c: Code<Payload>, info: seq<Node>, u: seq<nat>, bits: Bits)
    requires StackOK(c, info, u)
  {
    if u == [] then AllFalse(bits)
    else
      var pre := info[u[|u| - 1]].pre;
      pre <= bits && forall i :: |pre| + c.l <= i < |bits| ==> !bits[i]
  }

  /** The whole state between two codewords. */
  ghost predicate State(c: Code<Payload>, tabs: Tables, info: seq<Node>, u: seq<nat>, bits: Bits, pos: nat) {
    && TablesOK(c, tabs, info)
    && Filled(c, tabs, info, pos)
    && AllFit(c, info)
    && StackOK(c, info, u)
    && |bits| <= c.g && pos == Position(bits, c.g)
    && Closed(c, info, u, pos)
    && AtWord(c, info, u, bits)
    && (u == [] ==> info == [])
  }

  /** The prefixes of the open tables are nested. */
  lemma StackPrefix(c: Code<Payload>, tabs: Tables, info: seq<Node>, u: seq<nat>, j: nat, i: nat)
    requires TablesOK(c, tabs, info) && StackOK(c, info, u) && j <= i < |u|
    ensures info[u[j]].pre <= info[u[i]].pre
    decreases i - j
  {
    if j < i {
      StackPrefix(c, tabs, info, u, j, i - 1);
      assert ChildOf(info, u, i);
      assert NodeOK(c, info, u[i]);
    }
  }

  /** Some table other than the root was made wider than l bits. */
  ghost predicate Oversized(c: Code<Payload>, info: seq<Node>) {
    exists t :: 1 <= t < |info| && info[t].width > c.l
  }

  /** An oversized table holds codewords that are longer than its first l bits. */
  ghost predicate Roomy(c: Code<Payload>, info: seq<Node>) {
    forall t :: 1 <= t < |info| && info[t].width > c.l ==> RoomyNode(c, info[t])
  }

  ghost predicate RoomyNode(c: Code<Payload>, n: Node) {
    && |n.pre| + c.l < c.g < |c.cnt| == c.g + 1
    && c.EndPos(|n.pre| + c.l) < Position(n.pre, c.g) + Pow2(c.g - |n.pre|)
  }

  lemma AtUpdate(tabs: Tables, t: nat, i: nat, e: Entry, t': nat, p: Bits)
    requires t < |tabs| && i < |tabs[t]|
    ensures At(tabs[t := tabs[t][i := e]], t', p) == if t' == t && LE(p) == i then e else At(tabs, t', p)
  {
  }
}
