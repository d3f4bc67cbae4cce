/** From logical block numbers to tree positions (fs/ext2/inode.c:422-475). */
module Ext2Blocks {
  import opened Ext2Tree

  /** The number of data blocks below a pointer with n levels of indirect blocks under it. */
  function Pow(a: nat, n: nat): nat {
    if n == 0 then 1 else Scale(a, Pow(a, n - 1))
  }

  function Scale(x: nat, y: nat): nat { x * y }

  function Div(x: nat, y: nat): nat
    requires y > 0
  { x / y }

  function Rem(x: nat, y: nat): nat
    requires y > 0
  { x % y }

  /** One past the largest logical block. */
  function Limit(a: nat): nat {
    NDIR + a + Pow(a, 2) + Pow(a, 3)
  }

  /** The position of a data block among those below one pointer, first index most significant. */
  function Index(a: nat, t: seq<nat>): nat {
    if t == [] then 0 else Scale(t[0], Pow(a, |t| - 1)) + Index(a, t[1..])
  }

  /** The tree position of a logical block. */
  function PathOf(a: nat, block: nat): Path
    requires a > 0
  {
    if block < NDIR then [block]
    else if block - NDIR < a then [IND, block - NDIR]
    else if block - NDIR - a < Pow(a, 2) then
      var b := block - NDIR - a;
      [DIND, Div(b, a), Rem(b, a)]
    else
      var b := block - NDIR - a - Pow(a, 2);
      [TIND, Div(Div(b, a), a), Rem(Div(b, a), a), Rem(b, a)]
  }

  /** The first logical block below each slot of the inode. */
  function Base(a: nat, slot: nat): nat {
    if slot < NDIR then slot else if slot == IND then NDIR else if slot == DIND then NDIR + a else NDIR + a + Pow(a, 2)
  }

  function BlockBmap(fs: Fs, b: nat, nr: nat): nat {
    if b in fs.disk && nr < |fs.disk[b]| then fs.disk[b][nr] else 0
  }

  /** ext2_bmap (fs/ext2/inode.c:422-475); `block & (a - 1)` is the remainder because a is a power of two. */
  function Bmap(fs: Fs, block: int): nat
    requires fs.a > 0 && |fs.data| == NSLOTS
  {
    var a := fs.a;
    if block < 0 || block >= Limit(a) then 0
    else if block < NDIR then fs.data[block]
    else if block - NDIR < a then
      var i := fs.data[IND];
      if i == 0 then 0 else BlockBmap(fs, i, block - NDIR)
    else if block - NDIR - a < Pow(a, 2) then
      var b := block - NDIR - a;
      var i := fs.data[DIND];
      if i == 0 then 0 else
      var j := BlockBmap(fs, i, Div(b, a));
      if j == 0 then 0 else BlockBmap(fs, j, Rem(b, a))
    else
      var b := block - NDIR - a - Pow(a, 2);
      var i := fs.data[TIND];
      if i == 0 then 0 else
      var j := BlockBmap(fs, i, DivSquare(b, a));
      if j == 0 then 0 else
      var k := BlockBmap(fs, j, Rem(Div(b, a), a));
      if k == 0 then 0 else BlockBmap(fs, k, Rem(b, a))
  }

  /** `block / (a * a)` is the same as dividing twice. */
  function DivSquare(b: nat, a: nat): (q: nat)
    requires a > 0
    ensures q == Div(Div(b, a), a)
  {
    DivTwice(b, a);
    b / (a * a)
  }

  // ---- arithmetic ----

  lemma DivTwice(b: nat, a: nat)
    requires a > 0
    ensures a * a > 0 && b / (a * a) == b / a / a
  {
    var q := b / a;
    var x, y := q / a, q % a;
    assert b == a * q + b % a;
    assert q == a * x + y;
    Assoc(a, a, x);
    Spread(a, a * x, y);
    assert b == (a * a) * x + (a * y + b % a);
    Below(a, y, b % a);
    Positive(a, a);
    Unique(b, a * a, x, a * y + b % a);
  }

  lemma Positive(a: nat, b: nat)
    requires a > 0 && b > 0
    ensures a * b > 0
  {
  }

  lemma Assoc(a: nat, b: nat, c: nat)
    ensures a * (b * c) == (a * b) * c
  {
  }

  lemma Spread(a: nat, b: nat, c: nat)
    ensures a * (b + c) == a * b + a * c
  {
  }

  /** y and z below a make a*y + z below a*a. */
  lemma Below(a: nat, y: nat, z: nat)
    requires y < a && z < a
    ensures a * y + z < a * a
  {
    Times(a, y + 1, a);
    Spread(a, y, 1);
  }

  lemma Times(a: nat, b: nat, c: nat)
    requires b <= c
    ensures a * b <= a * c && b * a <= c * a
  {
  }

  lemma Unique(x: nat, d: nat, q: nat, r: nat)
    requires d > 0 && r < d && x == d * q + r
    ensures x / d == q && x % d == r
  {
    var q', r' := x / d, x % d;
    assert x == d * q' + r';
    if q' > q { Times(d, q + 1, q'); Spread(d, q, 1); }
    if q' < q { Times(d, q' + 1, q); Spread(d, q', 1); }
  }

  lemma Divided(b: nat, a: nat)
    requires a > 0
    ensures b == Scale(Div(b, a), a) + Rem(b, a) && Rem(b, a) < a
  {
  }

  lemma DivBelow(b: nat, a: nat, c: nat)
    requires a > 0 && b < Scale(a, c)
    ensures Div(b, a) < c
  {
    if b / a >= c { Times(a, c, b / a); }
  }

  /** Below the quotient, a whole stride fits. */
  lemma StrideFits(b: nat, s: nat, i: nat)
    requires s > 0
    ensures i < Div(b, s) ==> Scale(i, s) + s <= b
    ensures i >= Div(b, s) ==> Scale(i, s) + s > b
  {
    var q := b / s;
    assert b == s * q + b % s;
    if i < q { Times(s, i + 1, q); Spread(s, i, 1); }
    else { Times(s, q + 1, i + 1); Spread(s, q, 1); Spread(s, i, 1); }
  }

  lemma ScaleNext(i: nat, s: nat)
    ensures Scale(i + 1, s) == Scale(i, s) + s
  {
  }

  lemma ScaleMono(i: nat, j: nat, s: nat)
    requires i <= j
    ensures Scale(i, s) <= Scale(j, s)
  {
  }

  lemma Powers(a: nat)
    ensures Pow(a, 0) == 1 && Pow(a, 1) == a && Pow(a, 2) == Scale(a, a) && Pow(a, 3) == Scale(a, Pow(a, 2))
  {
    hide Scale;
    assert Scale(a, 1) == a by { ScaleUnit(a); }
  }

  lemma ScaleUnit(a: nat)
    ensures Scale(a, 1) == a && Scale(1, a) == a && Scale(0, a) == 0
  {
  }

  lemma {:induction false} PowPositive(a: nat, n: nat)
    requires a > 0
    ensures Pow(a, n) > 0
  {
    if n > 0 {
      PowPositive(a, n - 1);
      Positive(a, Pow(a, n - 1));
    }
  }

  // ---- positions of blocks ----

  lemma PathOfOK(fs: Fs, block: nat)
    requires fs.a > 0 && block < Limit(fs.a)
    ensures PathOK(fs, PathOf(fs.a, block)) && IsLeaf(PathOf(fs.a, block))
  {
    hide Scale, Div, Rem, Pow;
    var a := fs.a;
    Powers(a);
    if block >= NDIR + a && block - NDIR - a < Pow(a, 2) {
      var b := block - NDIR - a;
      DivBelow(b, a, a);
      Divided(b, a);
    } else if block >= NDIR + a + Pow(a, 2) {
      var b := block - NDIR - a - Pow(a, 2);
      DivBelow(b, a, Pow(a, 2));
      DivBelow(Div(b, a), a, a);
      Divided(b, a);
      Divided(Div(b, a), a);
    }
  }

  lemma PtrOne(fs: Fs, s: nat)
    requires s < |fs.data|
    ensures Ptr(fs, [s]) == fs.data[s]
  {
  }

  lemma PtrMore(fs: Fs, p: Path, i: nat)
    requires p != []
    ensures Ptr(fs, p + [i]) == if Ptr(fs, p) == 0 then 0 else BlockBmap(fs, Ptr(fs, p), i)
  {
    assert Parent(p + [i]) == p;
  }

  /** ext2_bmap walks the tree to the block's position. */
  lemma BmapIsPtr(fs: Fs, block: nat)
    requires fs.a > 0 && |fs.data| == NSLOTS && block < Limit(fs.a)
    ensures Bmap(fs, block) == Ptr(fs, PathOf(fs.a, block))
  {
    hide Scale, Div, Rem, Pow, Ptr, BlockBmap, Limit;
    var a := fs.a;
    var p := PathOf(a, block);
    PtrOne(fs, p[0]);
    assert |p| > 1 ==> [p[0]] + [p[1]] == p[..2];
    assert |p| > 2 ==> p[..2] + [p[2]] == p[..3];
    assert |p| > 3 ==> p[..3] + [p[3]] == p[..4];
    if |p| > 1 { PtrMore(fs, [p[0]], p[1]); }
    if |p| > 2 { PtrMore(fs, p[..2], p[2]); }
    if |p| > 3 { PtrMore(fs, p[..3], p[3]); }
    assert p[..|p|] == p;
  }

  lemma IndexMore(a: nat, x: nat, t: seq<nat>)
    ensures Index(a, [x] + t) == Scale(x, Pow(a, |t|)) + Index(a, t)
  {
    hide Scale, Pow;
    assert ([x] + t)[1..] == t;
  }

  lemma IndexSmall(a: nat, x: nat, y: nat, z: nat)
    ensures Index(a, []) == 0 && Index(a, [x]) == x && Index(a, [x, y]) == Scale(x, a) + y
    ensures Index(a, [x, y, z]) == Scale(Scale(x, a) + y, a) + z
  {
    hide Scale, Pow;
    Powers(a);
    IndexMore(a, z, []);
    IndexMore(a, x, []);
    IndexMore(a, y, []);
    IndexMore(a, y, [z]);
    IndexMore(a, x, [y]);
    IndexMore(a, x, [y, z]);
    assert [z] + [] == [z] && [x] + [] == [x] && [y] + [] == [y];
    assert [x] + [y, z] == [x, y, z] && [y] + [z] == [y, z] && [x] + [y] == [x, y];
    ScaleUnit(x);
    ScaleUnit(y);
    ScaleUnit(z);
    ScaleTwice(x, y, a);
  }

  lemma ScaleTwice(x: nat, y: nat, a: nat)
    ensures Scale(Scale(x, a) + y, a) == Scale(x, Scale(a, a)) + Scale(y, a)
  {
    Assoc(x, a, a);
    assert (x * a + y) * a == x * a * a + y * a;
  }

  /** A block's number is its slot's base plus its position below the slot. */
  lemma BlockNumber(a: nat, block: nat)
    requires a > 0 && block < Limit(a)
    ensures var p := PathOf(a, block); block == Base(a, p[0]) + Index(a, p[1..])
  {
    hide Scale, Div, Rem, Pow, Index;
    var p := PathOf(a, block);
    if block < NDIR {
      assert p[1..] == [];
      IndexSmall(a, 0, 0, 0);
    } else if block - NDIR < a {
      assert p[1..] == [block - NDIR];
      IndexSmall(a, block - NDIR, 0, 0);
    } else if block - NDIR - a < Pow(a, 2) {
      assert p[1..] == [p[1], p[2]];
      IndexSmall(a, p[1], p[2], 0);
      Divided(block - NDIR - a, a);
    } else {
      var b := block - NDIR - a - Pow(a, 2);
      assert p[1..] == [p[1], p[2], p[3]];
      IndexSmall(a, p[1], p[2], p[3]);
      Divided(b, a);
      Divided(Div(b, a), a);
    }
  }

  /** The same in plain numbers: twelve direct blocks, then a, a^2 and a^3 blocks, each indirect block indexed by one
      more digit of the rest to base a. */
  lemma NumberIs(a: nat, block: nat)
    requires a > 0 && block < Limit(a)
    ensures Limit(a) == 12 + a + a * a + a * (a * a)
    ensures var p := PathOf(a, block);
      && 1 <= |p| <= 4 && (forall i :: 1 <= i < |p| ==> p[i] < a)
      && (|p| == 1 ==> block == p[0] && block < 12)
      && (|p| == 2 ==> p[0] == 12 && block == 12 + p[1])
      && (|p| == 3 ==> p[0] == 13 && block == 12 + a + p[1] * a + p[2])
      && (|p| == 4 ==> p[0] == 14 && block == 12 + a + a * a + p[1] * (a * a) + p[2] * a + p[3])
  {
    var p := PathOf(a, block);
    Powers(a);
    PathOfOK(Fs([], map[], {}, 0, a, 0), block);
    BlockNumber(a, block);
    if |p| > 1 {
      var t := p[1..];
      IndexSmall(a, t[0], if |t| > 1 then t[1] else 0, if |t| > 2 then t[2] else 0);
      assert t == if |t| == 1 then [t[0]] else if |t| == 2 then [t[0], t[1]] else [t[0], t[1], t[2]];
    }
    hide Div, Rem, Index;
  }

  /** Different blocks have different positions. */
  lemma PathsDiffer(a: nat, b: nat, b': nat)
    requires a > 0 && b < Limit(a) && b' < Limit(a) && PathOf(a, b) == PathOf(a, b')
    ensures b == b'
  {
    hide Base, Index, Limit, PathOf;
    BlockNumber(a, b);
    BlockNumber(a, b');
  }

  /** Positions below one pointer are numbered below the number of data blocks there. */
  lemma {:induction false} IndexBelow(a: nat, t: seq<nat>)
    requires a > 0 && forall i :: 0 <= i < |t| ==> t[i] < a
    ensures Index(a, t) < Pow(a, |t|)
  {
    hide Scale;
    if t != [] {
      IndexBelow(a, t[1..]);
      ScaleNext(t[0], Pow(a, |t| - 1));
      ScaleMono(t[0] + 1, a, Pow(a, |t| - 1));
    }
  }

  /** ext2_getblk admits one block number more than ext2_bmap: for it the first index below the triple
      indirect pointer is one past the end of the block, and for no smaller one. */
  lemma FirstIndexInRange(a: nat, block: nat)
    requires a > 0 && NDIR + a + Pow(a, 2) <= block <= Limit(a)
    ensures DivSquare(block - NDIR - a - Pow(a, 2), a) < a <==> block < Limit(a)
  {
    hide Scale, Div, Rem, Pow, DivSquare;
    var b := block - NDIR - a - Pow(a, 2);
    Powers(a);
    if block < Limit(a) {
      DivBelow(b, a, Pow(a, 2));
      DivBelow(Div(b, a), a, a);
    } else {
      DivExact(a, Pow(a, 2));
      DivExact(a, a);
    }
  }

  lemma DivExact(a: nat, c: nat)
    requires a > 0
    ensures Div(Scale(a, c), a) == c
  {
    Unique(a * c, a, c, 0);
  }
}
