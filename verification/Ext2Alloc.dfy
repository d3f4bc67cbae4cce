/** The block allocator (fs/ext2/balloc.c:230-507): one bitmap and one free count for each block group,
    and the free count of the whole file system. */
module Ext2Alloc {
  import opened Ext2Blocks

  /** How many bits are clear. */
  function Clear(s: seq<bool>): nat {
    if s == [] then 0 else (if s[|s| - 1] then 0 else 1) + Clear(s[..|s| - 1])
  }

  function Sum(s: seq<int>): int {
    if s == [] then 0 else s[|s| - 1] + Sum(s[..|s| - 1])
  }

  lemma {:induction false} ClearUpdate(s: seq<bool>, i: nat, v: bool)
    requires i < |s| && s[i] != v
    ensures Clear(s[i := v]) == Clear(s) + if v then -1 else 1
  {
    if i == |s| - 1 {
      assert s[i := v][..|s| - 1] == s[..|s| - 1];
    } else {
      ClearUpdate(s[..|s| - 1], i, v);
      assert s[i := v][..|s| - 1] == s[..|s| - 1][i := v];
    }
  }

  lemma {:induction false} ClearZero(s: seq<bool>)
    ensures Clear(s) == 0 <==> forall i :: 0 <= i < |s| ==> s[i]
  {
    if s != [] { ClearZero(s[..|s| - 1]); }
  }

  lemma {:induction false} SumUpdate(s: seq<int>, i: nat, v: int)
    requires i < |s|
    ensures Sum(s[i := v]) == Sum(s) - s[i] + v
  {
    if i == |s| - 1 {
      assert s[i := v][..|s| - 1] == s[..|s| - 1];
    } else {
      SumUpdate(s[..|s| - 1], i, v);
      assert s[i := v][..|s| - 1] == s[..|s| - 1][i := v];
    }
  }

  lemma {:induction false} SumZero(s: seq<int>)
    requires forall i :: 0 <= i < |s| ==> s[i] >= 0
    ensures Sum(s) >= 0 && (Sum(s) == 0 <==> forall i :: 0 <= i < |s| ==> s[i] == 0)
  {
    if s != [] { SumZero(s[..|s| - 1]); }
  }

  // ---- searching one bitmap ----

  /** find_next_zero_bit: the first clear bit from `from` on, or the length. */
  method NextZeroBit(s: seq<bool>, from: nat) returns (k: nat)
    requires from <= |s|
    ensures from <= k <= |s| && (k < |s| ==> !s[k]) && forall i :: from <= i < k ==> s[i]
  {
    k := from;
    while k < |s| && s[k]
      invariant from <= k <= |s| && forall i :: from <= i < k ==> s[i]
    {
      k := k + 1;
    }
  }

  /** No bit of byte q is set. */
  predicate ByteClear(s: seq<bool>, q: nat) {
    8 * q + 8 <= |s| && forall i :: 8 * q <= i < 8 * q + 8 ==> !s[i]
  }

  lemma NotClear(s: seq<bool>, q: nat, byte: seq<bool>)
    requires 8 * q + 8 <= |s| && byte == s[8 * q..8 * q + 8]
    ensures ByteClear(s, q) ==> byte == seq(8, _ => false)
  {
    assert forall i :: 0 <= i < 8 ==> byte[i] == s[8 * q + i];
  }

  /** Bit j begins the first clear byte from that of bit `from` on; without such a byte it is the first clear bit. */
  predicate Picked(s: seq<bool>, from: nat, j: nat) {
    if exists q :: from / 8 <= q < |s| / 8 && ByteClear(s, q) then
      j % 8 == 0 && ByteClear(s, j / 8) && from / 8 <= j / 8 && forall q :: from / 8 <= q < j / 8 ==> !ByteClear(s, q)
    else FirstClear(s, from, j)
  }

  /** Bit j is the first clear one from bit `from` on. */
  predicate FirstClear(s: seq<bool>, from: nat, j: nat) {
    from <= j < |s| && !s[j] && forall i :: from <= i < j ==> s[i]
  }

  /** A clear bit from i up to and without n. */
  predicate SomeClear(s: seq<bool>, i: nat, n: nat) {
    exists x :: i <= x < n && x < |s| && !s[x]
  }

  /** find_first_zero_byte: the first byte from byte `from` on with no bit set, or the number of bytes. */
  method ZeroByte(s: seq<bool>, from: nat) returns (r: nat)
    requires |s| % 8 == 0 && from <= |s| / 8
    ensures from <= r <= |s| / 8 && (r < |s| / 8 ==> ByteClear(s, r))
    ensures forall q :: from <= q < r ==> !ByteClear(s, q)
  {
    r := from;
    while r < |s| / 8
      invariant from <= r <= |s| / 8 && forall q :: from <= q < r ==> !ByteClear(s, q)
    {
      var byte := s[8 * r..8 * r + 8];
      assert forall i :: 0 <= i < 8 ==> byte[i] == s[8 * r + i];
      if byte == seq(8, _ => false) {
        assert forall i :: 8 * r <= i < 8 * r + 8 ==> s[i] == byte[i - 8 * r];
        return;
      }
      NotClear(s, r, byte);
      r := r + 1;
    }
  }

  function Word(s: seq<bool>, w: nat): (r: seq<bool>)
    requires 32 * w + 32 <= |s|
    ensures |r| == 32
  {
    s[32 * w..32 * w + 32]
  }

  /** Shifts of a 32-bit word, lowest bit first; the processor takes the count modulo 32. */
  function Shr(x: seq<bool>, n: nat): (r: seq<bool>)
    requires |x| == 32
    ensures |r| == 32
  {
    x[n % 32..] + seq(n % 32, _ => false)
  }

  function Shl(x: seq<bool>, n: nat): (r: seq<bool>)
    requires |x| == 32
    ensures |r| == 32
  {
    seq(n % 32, _ => false) + x[..32 - n % 32]
  }

  function Or(x: seq<bool>, y: seq<bool>): (r: seq<bool>)
    requires |x| == |y| == 32
    ensures |r| == 32 && forall i :: 0 <= i < 32 ==> r[i] == (x[i] || y[i])
  {
    seq(32, i requires 0 <= i < 32 => x[i] || y[i])
  }

  /** The bits behind j, as ext2_new_block collects them (fs/ext2/balloc.c:366-372). */
  function Lmap(s: seq<bool>, j: nat): (r: seq<bool>)
    requires |s| % 32 == 0 && j < |s|
    ensures |r| == 32
  {
    var low := Shr(Word(s, j / 32), j % 32 + 1);
    if j + 32 < |s| then Or(low, Shl(Word(s, j / 32 + 1), 31 - j % 32))
    else Or(low, Shl(seq(32, _ => true), 31 - j % 32))
  }

  lemma ShrBit(x: seq<bool>, n: nat, t: nat)
    requires |x| == 32 && n < 32 && t < 32
    ensures Shr(x, n)[t] == (t + n < 32 && x[t + n])
  {
  }

  lemma ShlBit(x: seq<bool>, n: nat, t: nat)
    requires |x| == 32 && n < 32 && t < 32
    ensures Shl(x, n)[t] == (t >= n && x[t - n])
  {
  }

  lemma WordBit(s: seq<bool>, w: nat, t: nat)
    requires 32 * w + 32 <= |s| && t < 32
    ensures Word(s, w)[t] == s[32 * w + t]
  {
  }

  /** A clear bit of that word is a clear bit behind j, if it is in the group at all; and unless j is
      the last bit of a word, no clear bit is missed. */
  lemma LmapBit(s: seq<bool>, j: nat, t: nat)
    requires |s| % 32 == 0 && j < |s| && t < 32
    ensures !Lmap(s, j)[t] && j + t + 1 < |s| ==> !s[j + t + 1]
    ensures j % 32 != 31 && j + t + 1 < |s| ==> Lmap(s, j)[t] == s[j + t + 1]
  {
    hide Word, Shr, Shl;
    var w, b := j / 32, j % 32;
    var low := Word(s, w);
    if b < 31 {
      ShrBit(low, b + 1, t);
      if t + b + 1 < 32 { WordBit(s, w, t + b + 1); }
    }
    if j + 32 < |s| {
      ShlBit(Word(s, w + 1), 31 - b, t);
      if t >= 31 - b { WordBit(s, w + 1, t - (31 - b)); }
    } else {
      ShlBit(seq(32, _ => true), 31 - b, t);
    }
  }

  /** Look for a free block among the 32 behind j (fs/ext2/balloc.c:363-383); 0 when there is none. */
  method Near(s: seq<bool>, j: nat) returns (k: nat)
    requires |s| % 32 == 0 && j < |s|
    ensures k <= 32 && (k > 0 ==> j + k < |s| && !s[j + k])
    ensures j % 32 != 31 ==> forall i :: j < i < |s| && i <= j + 32 && (k > 0 ==> i < j + k) ==> s[i]
  {
    hide Lmap, Word;
    var lmap := Lmap(s, j);
    var t := 0;
    while t < 32 && lmap[t]
      invariant t <= 32
      invariant j % 32 != 31 ==> forall i :: j < i <= j + t && i < |s| ==> s[i]
    {
      LmapBit(s, j, t);
      t := t + 1;
    }
    if t < 32 && j + t + 1 < |s| {
      LmapBit(s, j, t);
      return t + 1;
    }
    return 0;
  }

  // ---- the groups ----

  /** No group behind g, all the way round, has a free block before group i comes. */
  predicate NoneBetween(counts: seq<int>, g: nat, i: nat) {
    && (forall x :: g < x < |counts| && (x < i || i <= g) ==> counts[x] <= 0)
    && (i <= g ==> forall x :: 0 <= x < i && x < |counts| ==> counts[x] <= 0)
  }

  /** The bit chosen in the group of a goal at bit j: the first clear one of the 32 behind it, or behind that, a clear
      byte first. */
  predicate InSame(s: seq<bool>, j: nat, x: nat) {
    var near := j != 0 && SomeClear(s, j + 1, j + 33);
    if near && j % 32 != 31 then FirstClear(s, j + 1, x)
    else j < x < |s| && !s[x] && (Picked(s, j, x) || (near && x <= j + 32))
  }

  lemma NearIs(s: seq<bool>, j: nat, k: nat)
    requires 0 < k <= 32 && j + k < |s| && !s[j + k] && j != 0
    requires j % 32 != 31 ==> forall i :: j < i < j + k ==> s[i]
    ensures InSame(s, j, j + k)
  {
  }

  lemma BehindIs(s: seq<bool>, j: nat, x: nat)
    requires j < x < |s| && !s[x] && Picked(s, j, x)
    requires j != 0 && j % 32 != 31 ==> !SomeClear(s, j + 1, j + 33)
    ensures InSame(s, j, x)
  {
    hide Picked, SomeClear;
  }

  /** The place chosen for a goal that is in use: behind it in its group, if there is a clear bit there, and else in the
      next group with a free block. */
  ghost predicate Chosen(bits: seq<seq<bool>>, counts: seq<int>, w: Where, x: Where)
    requires w.g < |bits| && x.g < |bits|
  {
    if SomeClear(bits[w.g], w.j + 1, |bits[w.g]|) then x.g == w.g && InSame(bits[w.g], w.j, x.j)
    else NoneBetween(counts, w.g, x.g) && Picked(bits[x.g], 0, x.j)
  }

  datatype Where = Where(g: nat, j: nat)

  class Groups {
    const first: nat
    const per: nat
    const total: nat
    const keep: int
    var bits: seq<seq<bool>>
    var counts: seq<int>
    var free: int

    /** The counts are the numbers of clear bits; bits that stand for no block are set, and so is the
        bit of block 0 if there is one. */
    ghost predicate Valid()
      reads this
    {
      && per > 0 && per % 32 == 0 && |bits| == |counts| > 0 && first + Scale(|bits|, per) >= total
      && (forall g :: 0 <= g < |bits| ==> |bits[g]| == per && counts[g] == Clear(bits[g]))
      && free == Sum(counts)
      && (forall g, j {:trigger bits[g][j]} :: 0 <= g < |bits| && 0 <= j < per && first + Scale(g, per) + j >= total ==>
        bits[g][j])
      && (first == 0 ==> bits[0][0])
    }

    /** The bit of block b. */
    function At(b: nat): Where
      requires first <= b && per > 0
    {
      Where(Div(b - first, per), Rem(b - first, per))
    }

    /** The bitmaps with block b's bit set or cleared. */
    function Marked(bs: seq<seq<bool>>, b: nat, v: bool): seq<seq<bool>>
      requires first <= b && per > 0
    {
      var w := At(b);
      if w.g < |bs| && w.j < |bs[w.g]| then bs[w.g := bs[w.g][w.j := v]] else bs
    }

    ghost predicate InUse(b: nat)
      reads this
      requires Valid() && first <= b < first + Scale(|bits|, per)
    {
      Below(b);
      bits[At(b).g][At(b).j]
    }

    /** Block b's bit is set in these bitmaps. */
    predicate IsSet(bs: seq<seq<bool>>, b: nat)
      requires per > 0
    {
      first <= b < total && At(b).g < |bs| && At(b).j < |bs[At(b).g]| && bs[At(b).g][At(b).j]
    }

    /** The blocks in use, as a set. */
    ghost function Used(bs: seq<seq<bool>>): set<nat>
      requires per > 0
    {
      set b: nat | b < total && IsSet(bs, b)
    }

    /** Setting or clearing a bit adds or removes that block. */
    lemma MarkedUsed(bs: seq<seq<bool>>, b: nat, v: bool)
      requires per > 0 && first <= b < total && At(b).g < |bs| && At(b).j < |bs[At(b).g]|
      ensures Used(Marked(bs, b, v)) == if v then Used(bs) + {b} else Used(bs) - {b}
      ensures b in Used(bs) <==> bs[At(b).g][At(b).j]
    {
      var bs' := Marked(bs, b, v);
      forall x: nat | x < total
        ensures IsSet(bs', x) <==> if x == b then v else IsSet(bs, x)
      {
        if first <= x && x != b {
          SamePlace(x, b);
        }
      }
    }

    lemma SamePlace(x: nat, y: nat)
      requires per > 0 && first <= x && first <= y
      ensures At(x) == At(y) ==> x == y
    {
      hide Div, Rem;
      Divided(x - first, per);
      Divided(y - first, per);
    }

    lemma Below(b: nat)
      requires per > 0 && first <= b < first + Scale(|bits|, per)
      ensures At(b).g < |bits| && At(b).j < per && b == first + Scale(At(b).g, per) + At(b).j
    {
      hide Scale, Div, Rem;
      Divided(b - first, per);
      if Div(b - first, per) >= |bits| { ScaleMono(|bits|, Div(b - first, per), per); }
    }

    /** ext2_new_block (fs/ext2/balloc.c:299-507) once a bit has been chosen. */
    method Take(g: nat, j: nat) returns (b: nat)
      requires Valid() && g < |bits| && j < per && !bits[g][j]
      modifies this
      ensures Valid() && b == first + Scale(g, per) + j && b != 0 && first <= b < total
      ensures bits == old(bits)[g := old(bits)[g][j := true]]
      ensures counts == old(counts)[g := old(counts)[g] - 1] && free == old(free) - 1
    {
      hide Scale, Div, Rem, Clear, Sum;
      ClearUpdate(bits[g], j, true);
      SumUpdate(counts, g, counts[g] - 1);
      FirstBit(g, j, per);
      b := j + Scale(g, per) + first;
      bits := bits[g := bits[g][j := true]];
      counts := counts[g := counts[g] - 1];
      free := free - 1;
    }

    /** A clear bit of group g, from bit `from` on: a whole clear byte if there is one
        (fs/ext2/balloc.c:395-409, 452-463).  The length when there is none. */
    method Search(g: nat, from: nat) returns (j: nat)
      requires Valid() && g < |bits| && from < per && (bits[g][from] || from == 0)
      ensures from <= j <= per && (j < per ==> !bits[g][j])
      ensures j == per ==> forall i :: from <= i < per ==> bits[g][i]
      ensures j < per ==> Picked(bits[g], from, j)
    {
      hide Scale, Clear, Sum;
      var r := ZeroByte(bits[g], from / 8);
      if 8 * r < per {
        j := 8 * r;
        if r == from / 8 { assert bits[g][from] || from == 0; }
      } else {
        j := NextZeroBit(bits[g], from);
      }
    }

    /** The next group with a free block, after group g and all the way round (fs/ext2/balloc.c:417-445). */
    method NextGroup(g: nat) returns (i: nat, found: bool)
      requires Valid() && g < |bits|
      ensures found ==> i < |bits| && counts[i] > 0 && NoneBetween(counts, g, i)
      ensures !found ==> forall x :: 0 <= x < |bits| ==> counts[x] <= 0
    {
      hide Scale, Clear, Sum;
      i := g;
      var k := 0;
      while k < |bits|
        invariant k <= |bits| && i < |bits| && i == (if g + k < |bits| then g + k else g + k - |bits|)
        invariant forall x :: g < x <= g + k && x < |bits| ==> counts[x] <= 0
        invariant forall x :: 0 <= x <= g + k - |bits| ==> counts[x] <= 0
      {
        i := i + 1;
        if i >= |bits| {
          i := 0;
        }
        if counts[i] > 0 {
          return i, true;
        }
        k := k + 1;
      }
      return i, false;
    }

    /** How many blocks a caller can still have: all but the reserve, unless it is the superuser. */
    ghost function Room(suser: bool): (room: nat)
      reads this
    {
      var reserve := if suser || keep < 0 then 0 else keep;
      if free > reserve then free - reserve else 0
    }

    lemma RoomIsLeft(suser: bool)
      requires Valid()
      ensures (free <= keep && !suser) || free == 0 <==> Room(suser) == 0
    {
      SumZero(counts);
    }

    /** Some block to start looking from. */
    method AnyGoal() returns (goal: nat)
      requires Valid()
      ensures first <= goal < first + Scale(|bits|, per)
    {
      ScaleMono(0, |bits|, per);
      goal :| first <= goal < first + Scale(|bits|, per);
    }

    /** ext2_new_block (fs/ext2/balloc.c:299-507).  A block is refused exactly when none is free, or only the
        reserve is left and the caller is not the superuser; otherwise a free block is taken: the goal
        itself if it is free.  For a goal in no group the code reads a descriptor that does not exist: `beyond`. */
    method NewBlock(goal: nat, suser: bool) returns (b: nat, beyond: bool)
      requires Valid()
      modifies this
      ensures Valid()
      ensures beyond <==> (old(free) > keep || suser) && !(first <= goal < first + Scale(|bits|, per))
      ensures b == 0 <==> (old(free) <= keep && !suser) || old(free) == 0 || beyond
      ensures b == 0 ==> bits == old(bits) && counts == old(counts) && free == old(free)
      ensures b != 0 ==> first <= b < total && !old(InUse(b)) && free == old(free) - 1
      ensures b != 0 ==> bits == Marked(old(bits), b, true)
      ensures b != 0 && !old(InUse(goal)) ==> b == goal
      ensures b != 0 && old(InUse(goal)) ==>
        At(goal).g < |bits| && At(b).g < |bits| && Chosen(old(bits), old(counts), At(goal), At(b))
      ensures b != 0 ==> b !in Used(old(bits)) && Used(bits) == Used(old(bits)) + {b}
    {
      beyond := (free > keep || suser) && (goal < first || goal >= first + Scale(|bits|, per));
      if beyond || (free <= keep && !suser) {
        return 0, beyond;
      }
      b := ChooseBlock(goal);
      if b != 0 {
        Below(b);
        MarkedUsed(old(bits), b, true);
      }
    }

    /** The choice of the block, and its bit. */
    method ChooseBlock(goal: nat) returns (b: nat)
      requires Valid() && first <= goal < first + Scale(|bits|, per)
      modifies this
      ensures Valid()
      ensures b == 0 <==> old(free) == 0
      ensures b == 0 ==> bits == old(bits) && counts == old(counts) && free == old(free)
      ensures b != 0 ==> first <= b < total && !old(InUse(b)) && free == old(free) - 1
      ensures b != 0 ==> bits == Marked(old(bits), b, true)
      ensures b != 0 && !old(InUse(goal)) ==> b == goal
      ensures b != 0 && old(InUse(goal)) ==>
        At(goal).g < |bits| && At(b).g < |bits| && Chosen(old(bits), old(counts), At(goal), At(b))
    {
      hide Scale, Div, Rem, Clear, Sum;
      Below(goal);
      SumZero(counts);
      var i, j := At(goal).g, At(goal).j;
      b := InGroup(i, j);
      if b != 0 {
        return;
      }
      var found;
      i, found := NextGroup(i);
      if !found {
        return 0;
      }
      ClearZero(bits[i]);
      j := Search(i, 0);
      b := Take(i, j);
      AtBlock(i, j);
    }

    /** A block of the goal's group: the goal, a near one, or one after it (fs/ext2/balloc.c:355-415). 0 if there is
        none. */
    method InGroup(i: nat, j: nat) returns (b: nat)
      requires Valid() && i < |bits| && j < per
      modifies this
      ensures Valid()
      ensures b == 0 ==> bits == old(bits) && counts == old(counts) && free == old(free) && bits[i][j]
      ensures b == 0 ==> !SomeClear(bits[i], j, per)
      ensures b != 0 ==> first <= b < total && At(b).g == i && At(b).j < per && !old(bits)[i][At(b).j]
      ensures b != 0 ==> bits == Marked(old(bits), b, true) && free == old(free) - 1
      ensures b != 0 ==> old(counts)[i] > 0
      ensures b != 0 && !old(bits)[i][j] ==> b == first + Scale(i, per) + j
      ensures b != 0 && old(bits)[i][j] ==> InSame(old(bits)[i], j, At(b).j)
    {
      hide Scale, Div, Rem, Clear, Sum, InSame;
      b := 0;
      ClearZero(bits[i]);
      if counts[i] > 0 {
        if !bits[i][j] {
          b := Take(i, j);
          AtBlock(i, j);
          return;
        }
        if j != 0 {
          var k := Near(bits[i], j);
          if k > 0 {
            NearIs(bits[i], j, k);
            b := Take(i, j + k);
            AtBlock(i, j + k);
            return;
          }
        }
        var j' := Search(i, j);
        if j' < per {
          BehindIs(bits[i], j, j');
          b := Take(i, j');
          AtBlock(i, j');
        }
      }
    }

    lemma AtBlock(g: nat, j: nat)
      requires per > 0 && j < per
      ensures At(first + Scale(g, per) + j) == Where(g, j)
    {
      Unique(g * per + j, per, g, j);
    }

    /** ext2_free_block (fs/ext2/balloc.c:230-290).  The free count of the file system goes up even if the block
        was free already, so the counts stay right exactly when it was in use. */
    method FreeBlock(b: nat)
      requires Valid()
      modifies this
      ensures b < first || b >= total ==> Valid() && bits == old(bits) && counts == old(counts) && free == old(free)
      ensures first <= b < total ==> (Valid() <==> old(InUse(b)) && (first == 0 ==> b != 0))
      ensures first <= b < total ==> bits == Marked(old(bits), b, false) && free == old(free) + 1
      ensures first <= b < total ==> Used(bits) == Used(old(bits)) - {b} && (old(InUse(b)) <==> b in Used(old(bits)))
    {
      hide Scale, Div, Rem, Clear, Sum;
      if b < first || b >= total {
        return;
      }
      Below(b);
      MarkedUsed(bits, b, false);
      var g, j := At(b).g, At(b).j;
      FirstBit(g, j, per);
      if !bits[g][j] {
        assert bits[g][j := false] == bits[g];
        assert bits[g := bits[g][j := false]] == bits;
      } else {
        ClearUpdate(bits[g], j, false);
        SumUpdate(counts, g, counts[g] + 1);
        bits := bits[g := bits[g][j := false]];
        counts := counts[g := counts[g] + 1];
        PadKept(old(bits), bits, g, j, b);
      }
      free := free + 1;
    }

    lemma PadKept(bs: seq<seq<bool>>, bs': seq<seq<bool>>, g: nat, j: nat, b: nat)
      requires g < |bs| && |bs[g]| == per && j < per && bs' == bs[g := bs[g][j := false]]
        && b == first + Scale(g, per) + j < total
      requires forall x :: 0 <= x < |bs| ==> |bs[x]| == per
      requires forall x, y {:trigger bs[x][y]} ::
        0 <= x < |bs| && 0 <= y < per && first + Scale(x, per) + y >= total ==> bs[x][y]
      ensures forall x, y {:trigger bs'[x][y]} ::
        0 <= x < |bs'| && 0 <= y < per && first + Scale(x, per) + y >= total ==> bs'[x][y]
    {
      forall x, y | 0 <= x < |bs'| && 0 <= y < per && first + Scale(x, per) + y >= total
        ensures bs'[x][y]
      {
        assert bs[x][y];
      }
    }
  }

  lemma FirstBit(g: nat, j: nat, per: nat)
    requires per > 0
    ensures Scale(g, per) + j == 0 <==> g == 0 && j == 0
  {
    if g > 0 { ScaleMono(1, g, per); }
  }
}
