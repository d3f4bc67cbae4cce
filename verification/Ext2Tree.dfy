/** The block tree of an ext2 inode (fs/ext2/inode.c:409-475): twelve direct pointers and a single,
    a double and a triple indirect one.  A position in the tree is a path: a slot of the inode, then
    an index into each indirect block on the way down. */
module Ext2Tree {

  const NDIR := 12
  const IND := 12
  const DIND := 13
  const TIND := 14
  const NSLOTS := 15

  type Path = seq<nat>

  /** An inode and the disk: pointers in the inode, contents of blocks read as pointers, blocks marked
      in the bitmap, i_blocks, pointers per block, and 512-byte units per block. */
  datatype Fs = Fs(data: seq<nat>, disk: map<nat, seq<nat>>, used: set<nat>, iblocks: int, a: nat, units: nat)

  /** How many indirect blocks lie above the data blocks of a slot. */
  function Depth(slot: nat): nat {
    if slot < NDIR then 0 else slot - NDIR + 1
  }

  predicate PathOK(fs: Fs, p: Path) {
    1 <= |p| && p[0] < NSLOTS && |p| <= Depth(p[0]) + 1 && forall i :: 1 <= i < |p| ==> p[i] < fs.a
  }

  predicate IsLeaf(p: Path)
    requires p != []
  {
    |p| == Depth(p[0]) + 1
  }

  function Parent(p: Path): Path
    requires p != []
  {
    p[..|p| - 1]
  }

  /** The block a path leads to, 0 for a hole. */
  function Ptr(fs: Fs, p: Path): nat {
    if p == [] then 0
    else if |p| == 1 then if p[0] < |fs.data| then fs.data[p[0]] else 0
    else
      var b := Ptr(fs, Parent(p));
      if b != 0 && b in fs.disk && p[|p| - 1] < |fs.disk[b]| then fs.disk[b][p[|p| - 1]] else 0
  }

  /** The blocks in the tree. */
  ghost function Reach(fs: Fs): set<nat> {
    set b | b in fs.used && InTree(fs, b)
  }

  ghost predicate InTree(fs: Fs, b: nat) {
    b != 0 && exists p :: PathOK(fs, p) && Ptr(fs, p) == b
  }

  ghost predicate NodeOK(fs: Fs, p: Path) {
    Ptr(fs, p) != 0 ==> Ptr(fs, p) in fs.used && Ptr(fs, p) in fs.disk && |fs.disk[Ptr(fs, p)]| == fs.a
  }

  ghost predicate Distinct(fs: Fs, p: Path, q: Path) {
    Ptr(fs, p) == Ptr(fs, q) != 0 ==> p == q
  }

  /** Every block in the tree is marked used, no two positions share a block, and i_blocks counts them. */
  ghost predicate Inv(fs: Fs) {
    && |fs.data| == NSLOTS && fs.a > 0 && 0 !in fs.used
    && (forall p {:trigger NodeOK(fs, p)} :: PathOK(fs, p) ==> NodeOK(fs, p))
    && (forall p, q {:trigger Distinct(fs, p, q)} :: PathOK(fs, p) && PathOK(fs, q) ==> Distinct(fs, p, q))
    && fs.iblocks == fs.units * |Reach(fs)|
  }

  /** The two trees differ at one position only. */
  ghost predicate OnlyAt(fs: Fs, fs': Fs, q: Path) {
    && fs'.a == fs.a && fs'.units == fs.units && |fs'.data| == |fs.data|
    && forall p {:trigger Ptr(fs', p)} :: PathOK(fs, p) && p != q ==> Ptr(fs', p) == Ptr(fs, p)
  }

  lemma ParentOK(fs: Fs, p: Path)
    requires PathOK(fs, p) && |p| > 1
    ensures PathOK(fs, Parent(p)) && !IsLeaf(Parent(p))
  {
  }

  /** Below a hole everything is a hole. */
  lemma {:induction false} BelowHole(fs: Fs, p: Path, q: Path)
    requires q != [] && q <= p && Ptr(fs, q) == 0
    ensures Ptr(fs, p) == 0
    decreases |p|
  {
    if p != q {
      assert q <= Parent(p);
      BelowHole(fs, Parent(p), q);
    }
  }

  // ---- filling a hole ----

  /** The pointer cell of position q. */
  function SetPtr(fs: Fs, q: Path, b: nat): Fs
    requires PathOK(fs, q) && |fs.data| == NSLOTS
    requires |q| > 1 ==> Ptr(fs, Parent(q)) in fs.disk && |fs.disk[Ptr(fs, Parent(q))]| == fs.a
  {
    if |q| == 1 then fs.(data := fs.data[q[0] := b])
    else
      var up := Ptr(fs, Parent(q));
      var block: seq<nat> := fs.disk[up][q[|q| - 1] := b];
      fs.(disk := fs.disk[up := block])
  }

  function Zeros(n: nat): (z: seq<nat>)
    ensures |z| == n && forall i :: 0 <= i < n ==> z[i] == 0
  {
    seq(n, _ => 0)
  }

  /** A new block b at hole q: marked used, zeroed, counted and pointed to. */
  function Grow(fs: Fs, q: Path, b: nat): Fs
    requires Inv(fs) && PathOK(fs, q) && (|q| > 1 ==> Ptr(fs, Parent(q)) != 0)
  {
    if |q| > 1 then
      assert PathOK(fs, Parent(q)) && NodeOK(fs, Parent(q));
      var fs1 := SetPtr(fs, q, b);
      fs1.(disk := fs1.disk[b := Zeros(fs.a)], used := fs.used + {b}, iblocks := fs.iblocks + fs.units)
    else
      var fs1 := SetPtr(fs, q, b);
      fs1.(disk := fs1.disk[b := Zeros(fs.a)], used := fs.used + {b}, iblocks := fs.iblocks + fs.units)
  }

  lemma {:induction false} GrowPtr(fs: Fs, q: Path, b: nat, p: Path)
    requires Inv(fs) && PathOK(fs, q) && (|q| > 1 ==> Ptr(fs, Parent(q)) != 0)
    requires Ptr(fs, q) == 0 && b != 0 && b !in fs.used && PathOK(fs, p)
    ensures Ptr(Grow(fs, q, b), p) == if p == q then b else Ptr(fs, p)
    decreases |p|
  {
    var fs' := Grow(fs, q, b);
    if |p| > 1 {
      var up := Parent(p);
      ParentOK(fs, p);
      GrowPtr(fs, q, b, up);
      assert NodeOK(fs, up);
      if up == q {
        BelowHole(fs, p, q);
      } else if |q| > 1 {
        ParentOK(fs, q);
        assert NodeOK(fs, Parent(q)) && Distinct(fs, up, Parent(q));
        if p != q && up == Parent(q) { assert p[|p| - 1] != q[|q| - 1] by { SamePath(p, q); } }
      }
    }
  }

  lemma SamePath(p: Path, q: Path)
    requires |p| > 0 && |q| > 0 && Parent(p) == Parent(q) && p != q
    ensures p[|p| - 1] != q[|q| - 1]
  {
    assert p == Parent(p) + [p[|p| - 1]] && q == Parent(q) + [q[|q| - 1]];
  }

  // ---- making a hole ----

  /** Nothing hangs below position q. */
  ghost predicate Bare(fs: Fs, q: Path) {
    forall p {:trigger Ptr(fs, p)} :: PathOK(fs, p) && q <= p && p != q ==> Ptr(fs, p) == 0
  }

  /** The block at q is unhooked, unmarked and uncounted. */
  function Prune(fs: Fs, q: Path): Fs
    requires Inv(fs) && PathOK(fs, q) && Ptr(fs, q) != 0
  {
    if |q| > 1 then
      assert PathOK(fs, Parent(q)) && NodeOK(fs, Parent(q));
      SetPtr(fs, q, 0).(used := fs.used - {Ptr(fs, q)}, iblocks := fs.iblocks - fs.units)
    else
      SetPtr(fs, q, 0).(used := fs.used - {Ptr(fs, q)}, iblocks := fs.iblocks - fs.units)
  }

  lemma {:induction false} PrunePtr(fs: Fs, q: Path, p: Path)
    requires Inv(fs) && PathOK(fs, q) && Ptr(fs, q) != 0 && Bare(fs, q) && PathOK(fs, p)
    ensures Ptr(Prune(fs, q), p) == if p == q then 0 else Ptr(fs, p)
    decreases |p|
  {
    var fs' := Prune(fs, q);
    if |p| > 1 {
      var up := Parent(p);
      ParentOK(fs, p);
      PrunePtr(fs, q, up);
      assert NodeOK(fs, up);
      if up == q {
        assert q <= p && p != q;
      } else if |q| > 1 {
        ParentOK(fs, q);
        assert NodeOK(fs, Parent(q)) && Distinct(fs, up, Parent(q));
        if p != q && up == Parent(q) { assert p[|p| - 1] != q[|q| - 1] by { SamePath(p, q); } }
      }
    }
  }

  // ---- both keep the invariant ----

  lemma GrowOK(fs: Fs, q: Path, b: nat)
    requires Inv(fs) && PathOK(fs, q) && (|q| > 1 ==> Ptr(fs, Parent(q)) != 0)
    requires Ptr(fs, q) == 0 && b != 0 && b !in fs.used
    ensures var fs' := Grow(fs, q, b);
            && Inv(fs') && OnlyAt(fs, fs', q) && Ptr(fs', q) == b && fs'.used == fs.used + {b}
            && Reach(fs') == Reach(fs) + {b} && b !in Reach(fs)
  {
    hide Ptr;
    var fs' := Grow(fs, q, b);
    forall p | PathOK(fs, p)
      ensures Ptr(fs', p) == (if p == q then b else Ptr(fs, p)) && NodeOK(fs', p)
    {
      GrowPtr(fs, q, b, p);
      assert NodeOK(fs, p);
      GrowDisk(fs, q, b, Ptr(fs, p));
    }
    forall p, p' | PathOK(fs', p) && PathOK(fs', p')
      ensures Distinct(fs', p, p')
    {
      assert Distinct(fs, p, p') && NodeOK(fs, p) && NodeOK(fs, p');
      assert PathOK(fs, p) && PathOK(fs, p');
    }
    GrowReach(fs, q, b, fs');
  }

  lemma GrowDisk(fs: Fs, q: Path, b: nat, x: nat)
    requires Inv(fs) && PathOK(fs, q) && (|q| > 1 ==> Ptr(fs, Parent(q)) != 0) && b != 0 && b !in fs.used
    ensures var fs' := Grow(fs, q, b);
            && b in fs'.disk && |fs'.disk[b]| == fs.a
            && (x in fs.used && x in fs.disk && |fs.disk[x]| == fs.a ==> x in fs'.disk && |fs'.disk[x]| == fs.a)
  {
    hide Ptr;
    if |q| > 1 {
      ParentOK(fs, q);
      assert NodeOK(fs, Parent(q));
    }
  }

  lemma GrowReach(fs: Fs, q: Path, b: nat, fs': Fs)
    requires PathOK(fs, q) && b != 0 && b !in fs.used && fs'.used == fs.used + {b} && Ptr(fs, q) == 0
    requires fs'.a == fs.a && forall p {:trigger Ptr(fs', p)} :: PathOK(fs, p) ==>
      Ptr(fs', p) == if p == q then b else Ptr(fs, p)
    requires fs.iblocks == fs.units * |Reach(fs)| && fs'.iblocks == fs.iblocks + fs.units && fs'.units == fs.units
    ensures Reach(fs') == Reach(fs) + {b} && fs'.iblocks == fs'.units * |Reach(fs')|
  {
    hide Ptr;
    forall x | x in fs'.used
      ensures InTree(fs', x) <==> x == b || InTree(fs, x)
    {
      if InTree(fs', x) {
        var p :| PathOK(fs', p) && Ptr(fs', p) == x;
        assert PathOK(fs, p);
      }
      if InTree(fs, x) {
        var p :| PathOK(fs, p) && Ptr(fs, p) == x;
        assert PathOK(fs', p) && Ptr(fs', p) == x;
      }
      if x == b { assert PathOK(fs', q) && Ptr(fs', q) == x; }
    }
    assert b !in Reach(fs);
    assert Reach(fs') == Reach(fs) + {b};
  }

  lemma PruneOK(fs: Fs, q: Path)
    requires Inv(fs) && PathOK(fs, q) && Ptr(fs, q) != 0 && Bare(fs, q)
    ensures var fs' := Prune(fs, q);
            && Inv(fs') && OnlyAt(fs, fs', q) && Ptr(fs', q) == 0
            && fs'.used == fs.used - {Ptr(fs, q)} && Reach(fs') == Reach(fs) - {Ptr(fs, q)}
  {
    hide Ptr;
    var fs' := Prune(fs, q);
    forall p | PathOK(fs, p)
      ensures Ptr(fs', p) == (if p == q then 0 else Ptr(fs, p)) && NodeOK(fs', p)
    {
      PrunePtr(fs, q, p);
      assert NodeOK(fs, p) && Distinct(fs, p, q);
      PruneDisk(fs, q, Ptr(fs, p));
    }
    forall p, p' | PathOK(fs', p) && PathOK(fs', p')
      ensures Distinct(fs', p, p')
    {
      assert Distinct(fs, p, p');
      assert PathOK(fs, p) && PathOK(fs, p');
    }
    assert NodeOK(fs, q);
    PruneReach(fs, q, fs');
  }

  lemma PruneDisk(fs: Fs, q: Path, x: nat)
    requires Inv(fs) && PathOK(fs, q) && Ptr(fs, q) != 0
    ensures x in fs.disk && |fs.disk[x]| == fs.a ==> x in Prune(fs, q).disk && |Prune(fs, q).disk[x]| == fs.a
  {
    hide Ptr;
    if |q| > 1 {
      ParentOK(fs, q);
      assert NodeOK(fs, Parent(q));
    }
  }

  lemma PruneReach(fs: Fs, q: Path, fs': Fs)
    requires PathOK(fs, q) && Ptr(fs, q) != 0 && Ptr(fs, q) in fs.used && fs'.used == fs.used - {Ptr(fs, q)}
    requires fs'.a == fs.a && forall p {:trigger Ptr(fs', p)} :: PathOK(fs, p) ==>
      Ptr(fs', p) == if p == q then 0 else Ptr(fs, p)
    requires fs.iblocks == fs.units * |Reach(fs)| && fs'.iblocks == fs.iblocks - fs.units && fs'.units == fs.units
    ensures Reach(fs') == Reach(fs) - {Ptr(fs, q)} && fs'.iblocks == fs'.units * |Reach(fs')|
  {
    hide Ptr;
    var b := Ptr(fs, q);
    forall x | x in fs'.used
      ensures InTree(fs', x) <==> InTree(fs, x)
    {
      if InTree(fs', x) {
        var p :| PathOK(fs', p) && Ptr(fs', p) == x;
        assert PathOK(fs, p);
      }
      if InTree(fs, x) {
        var p :| PathOK(fs, p) && Ptr(fs, p) == x;
        assert PathOK(fs', p) && Ptr(fs', p) == x;
      }
    }
    assert b in Reach(fs);
    assert Reach(fs') == Reach(fs) - {b};
  }
}
