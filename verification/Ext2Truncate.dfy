/** ext2_truncate (fs/ext2/truncate.c:33-274), one user and no I/O errors: every buffer is held once,
    so nothing is ever retried. */
module Ext2Truncate {
  import opened Ext2Tree
  import opened Ext2Blocks
  import opened Ext2Trim

  // ---- indirect blocks that hold nothing before block d ----

  /** The first data block below position t, counted below a pointer with h levels under it. */
  function FirstBelow(a: nat, h: nat, t: seq<nat>): nat
    requires |t| <= h
    decreases h
  {
    if t == [] then 0 else Scale(t[0], Pow(a, h - 1)) + FirstBelow(a, h - 1, t[1..])
  }

  ghost predicate Inner(fs: Fs, r: Path) {
    PathOK(fs, r) && !IsLeaf(r)
  }

  ghost predicate GoneAt(fs: Fs, p: Path, h: nat, off: nat, d: nat, n: nat, r: Path)
    requires |p| < |r| <= |p| + h
  {
    r[|p|] < n && off + FirstBelow(fs.a, h, r[|p|..]) >= d ==> Ptr(fs, r) == 0
  }

  /** Under the first n children of p, no indirect block is left whose blocks are all d or more. */
  ghost predicate Gone(fs: Fs, p: Path, h: nat, off: nat, d: nat, n: nat) {
    forall r {:trigger Inner(fs, r)} :: Inner(fs, r) && p <= r && |p| < |r| <= |p| + h ==>
      GoneAt(fs, p, h, off, d, n, r)
  }

  lemma {:induction false} FirstBelowSmall(a: nat, h: nat, t: seq<nat>)
    requires a > 0 && |t| <= h && forall i :: 0 <= i < |t| ==> t[i] < a
    ensures FirstBelow(a, h, t) < Pow(a, h)
    decreases h
  {
    hide Scale;
    if t == [] {
      PowPositive(a, h);
    } else {
      FirstBelowSmall(a, h - 1, t[1..]);
      ScaleNext(t[0], Pow(a, h - 1));
      ScaleMono(t[0] + 1, a, Pow(a, h - 1));
    }
  }

  lemma {:induction false} FirstBelowAt(a: nat, h: nat, r: Path, n: nat)
    requires n < |r| <= n + h
    ensures FirstBelow(a, h, r[n..]) == Scale(r[n], Pow(a, h - 1)) + FirstBelow(a, h - 1, r[n + 1..])
  {
    hide Scale, Pow;
    assert r[n..][1..] == r[n + 1..];
  }

  lemma {:induction false} TailSmallFirst(fs: Fs, h: nat, r: Path, n: nat)
    requires fs.a > 0 && PathOK(fs, r) && 1 <= n <= |r| <= n + h
    ensures FirstBelow(fs.a, h, r[n..]) < Pow(fs.a, h)
  {
    hide Scale, Pow, FirstBelow, Ptr;
    FirstBelowSmall(fs.a, h, r[n..]);
  }

  lemma {:induction false} GoneStart(fs: Fs, p: Path, h: nat, off: nat, d: nat)
    requires fs.a > 0 && Level(fs, p, h) && h >= 1 && Pow(fs.a, h - 1) > 0
    ensures Gone(fs, p, h, off, d, Start(d, off, Pow(fs.a, h - 1)))
  {
    hide Ptr, Scale, Pow, Div, FirstBelow;
    var s := Pow(fs.a, h - 1);
    var n := Start(d, off, s);
    forall r | Inner(fs, r) && p <= r && |p| < |r| <= |p| + h ensures GoneAt(fs, p, h, off, d, n, r) {
      FirstBelowAt(fs.a, h, r, |p|);
      TailSmallFirst(fs, h - 1, r, |p| + 1);
      if r[|p|] < n { StrideFits(d - off, s, r[|p|]); }
    }
  }

  lemma {:induction false} GoneKept(fs1: Fs, fs2: Fs, p: Path, h: nat, off: nat, d: nat, n: nat)
    requires Gone(fs1, p, h, off, d, n) && Trimmed(fs1, fs2)
    ensures Gone(fs2, p, h, off, d, n)
  {
    hide Ptr, Scale, Pow, FirstBelow, Reach;
    forall r | Inner(fs2, r) && p <= r && |p| < |r| <= |p| + h ensures GoneAt(fs2, p, h, off, d, n, r) {
      assert Inner(fs1, r);
      assert KeptOrCut(fs1, fs2, r);
      assert GoneAt(fs1, p, h, off, d, n, r);
    }
  }

  lemma {:induction false} GoneNext(fs1: Fs, fs2: Fs, p: Path, h: nat, off: nat, d: nat, i: nat)
    requires h >= 1 && p != [] && Gone(fs1, p, h, off, d, i) && Trimmed(fs1, fs2)
    requires Gone(fs2, p + [i], h - 1, off + Scale(i, Pow(fs2.a, h - 1)), d, fs2.a)
    requires off + Scale(i, Pow(fs2.a, h - 1)) >= d ==> Ptr(fs2, p + [i]) == 0
    ensures Gone(fs2, p, h, off, d, i + 1)
  {
    hide Ptr, Scale, Pow, FirstBelow, Reach, Trimmed;
    var q := p + [i];
    GoneKept(fs1, fs2, p, h, off, d, i);
    forall r | Inner(fs2, r) && p <= r && |p| < |r| <= |p| + h ensures GoneAt(fs2, p, h, off, d, i + 1, r) {
      assert GoneAt(fs2, p, h, off, d, i, r);
      if r[|p|] == i {
        FirstBelowAt(fs2.a, h, r, |p|);
        assert q <= r;
        if |r| > |q| {
          assert GoneAt(fs2, q, h - 1, off + Scale(i, Pow(fs2.a, h - 1)), d, fs2.a, r);
        } else {
          assert r == q && r[|p| + 1..] == [];
          FirstBelowNone(fs2.a, h - 1);
        }
      }
    }
  }

  lemma FirstBelowNone(a: nat, h: nat)
    ensures FirstBelow(a, h, []) == 0
  {
  }

  lemma {:induction false} GoneHole(fs: Fs, p: Path, h: nat, off: nat, d: nat, n: nat)
    requires p != [] && Ptr(fs, p) == 0
    ensures Gone(fs, p, h, off, d, n)
  {
    hide Ptr, Scale, Pow, FirstBelow;
    forall r | Inner(fs, r) && p <= r && |p| < |r| <= |p| + h ensures GoneAt(fs, p, h, off, d, n, r) {
      BelowHole(fs, r, p);
    }
  }

  lemma {:induction false} GoneAll(fs: Fs, p: Path, h: nat, off: nat, d: nat, n: nat)
    requires Gone(fs, p, h, off, d, n) && n >= fs.a
    ensures Gone(fs, p, h, off, d, fs.a)
  {
    hide Ptr, Scale, Pow, FirstBelow;
    forall r | Inner(fs, r) && p <= r && |p| < |r| <= |p| + h ensures GoneAt(fs, p, h, off, d, fs.a, r) {
      assert GoneAt(fs, p, h, off, d, n, r);
    }
  }

  // ---- what a call does below one pointer ----

  /** Below p, whose first data block has number off, the file is cut at block d: data blocks from d on
      are gone and the others untouched, indirect blocks with nothing before d are gone, and exactly
      what left the tree was freed. */
  ghost predicate Cut(fs0: Fs, fs: Fs, p: Path, h: nat, off: nat, d: nat) {
    && Inv(fs) && Trimmed(fs0, fs) && Outside(fs0, fs, p)
    && CutTo(fs0, fs, p, off, d, fs.a) && Gone(fs, p, h, off, d, fs.a)
    && (off >= d ==> Ptr(fs, p) == 0)
  }

  /** The same for the first n children, while the pointer itself is still there. */
  ghost predicate Cutting(fs0: Fs, fs: Fs, p: Path, h: nat, off: nat, d: nat, n: nat) {
    && Inv(fs) && Trimmed(fs0, fs) && Outside(fs0, fs, p) && Ptr(fs, p) == Ptr(fs0, p) != 0
    && CutTo(fs0, fs, p, off, d, n) && Gone(fs, p, h, off, d, n)
    && Level(fs0, p, h)
    && (off >= d ==> forall i {:trigger Ptr(fs, p + [i])} :: 0 <= i < n && i < fs.a ==> Ptr(fs, p + [i]) == 0)
  }

  lemma OutsideNothing(fs: Fs, p: Path)
    ensures Outside(fs, fs, p)
  {
  }

  lemma {:induction false} CutHoleAll(fs: Fs, p: Path, h: nat, off: nat, d: nat)
    requires Inv(fs) && p != [] && Ptr(fs, p) == 0
    ensures Cut(fs, fs, p, h, off, d)
  {
    hide Ptr, Inv, Trimmed, Outside, CutTo, Gone;
    TrimNothing(fs);
    OutsideNothing(fs, p);
    CutHole(fs, p, off, d, fs.a);
    GoneHole(fs, p, h, off, d, fs.a);
  }

  lemma {:induction false} CutBegin(fs: Fs, p: Path, h: nat, off: nat, d: nat)
    requires Inv(fs) && Level(fs, p, h) && h >= 1 && Ptr(fs, p) != 0
    ensures Pow(fs.a, h - 1) > 0 && Cutting(fs, fs, p, h, off, d, Start(d, off, Pow(fs.a, h - 1)))
  {
    hide Ptr, Trimmed, Outside, CutTo, Gone, Pow;
    PowPositive(fs.a, h - 1);
    TrimNothing(fs);
    OutsideNothing(fs, p);
    StartCuts(fs, p, h, off, d);
    GoneStart(fs, p, h, off, d);
  }

  lemma {:induction false} StillZero(fs1: Fs, fs2: Fs, p: Path, n: nat)
    requires Trimmed(fs1, fs2) && PathOK(fs1, p) && !IsLeaf(p)
    requires forall i {:trigger Ptr(fs1, p + [i])} :: 0 <= i < n && i < fs1.a ==> Ptr(fs1, p + [i]) == 0
    ensures forall i {:trigger Ptr(fs2, p + [i])} :: 0 <= i < n && i < fs1.a ==> Ptr(fs2, p + [i]) == 0
  {
    hide Ptr, Reach;
    forall i | 0 <= i < n && i < fs1.a
      ensures Ptr(fs2, p + [i]) == 0
    {
      assert PathOK(fs1, p + [i]);
      assert KeptOrCut(fs1, fs2, p + [i]);
      assert Ptr(fs1, p + [i]) == 0;
    }
  }

  /** The pointer stays while its child is worked on. */
  lemma {:induction false} AboveKept(fs1: Fs, fs2: Fs, p: Path, i: nat)
    requires Outside(fs1, fs2, p + [i]) && PathOK(fs1, p)
    ensures Ptr(fs2, p) == Ptr(fs1, p)
  {
    hide Ptr;
    assert !(p + [i] <= p);
    assert Same(fs1, fs2, p);
  }

  /** One more child that is an indirect block. */
  lemma {:induction false} CutChild(fs0: Fs, fs1: Fs, fs2: Fs, p: Path, h: nat, off: nat, d: nat, i: nat)
    requires Cutting(fs0, fs1, p, h, off, d, i) && h >= 2 && i < fs1.a
    requires Cut(fs1, fs2, p + [i], h - 1, off + Scale(i, Pow(fs1.a, h - 1)), d)
    ensures Cutting(fs0, fs2, p, h, off, d, i + 1)
  {
    hide Ptr, Inv, Trimmed, Outside, CutTo, Gone, Pow, Scale, Reach;
    SameShape(fs0, fs1);
    SameShape(fs1, fs2);
    TrimTwice(fs0, fs1, fs2);
    OutsideTwice(fs0, fs1, fs2, p, p + [i]);
    AboveKept(fs1, fs2, p, i);
    CutNext(fs0, fs1, fs2, p, h, off, d, i);
    GoneNext(fs1, fs2, p, h, off, d, i);
    if off >= d { StillZero(fs1, fs2, p, i); }
  }

  lemma SameShape(fs: Fs, fs': Fs)
    requires Trimmed(fs, fs')
    ensures fs'.a == fs.a && fs'.units == fs.units && |fs'.data| == |fs.data|
  {
  }

  /** One more child that is a data block. */
  lemma {:induction false} CutDataChild(fs0: Fs, fs1: Fs, p: Path, off: nat, d: nat, i: nat)
    requires Cutting(fs0, fs1, p, 1, off, d, i) && i < fs1.a && off + i >= d
    requires PathOK(fs1, p + [i])
    ensures Cutting(fs0, if Ptr(fs1, p + [i]) == 0 then fs1 else Prune(fs1, p + [i]), p, 1, off, d, i + 1)
  {
    hide Ptr, Inv, Trimmed, Outside, CutTo, Gone, Pow, Scale, Reach, Prune;
    var q := p + [i];
    var fs2 := if Ptr(fs1, q) == 0 then fs1 else Prune(fs1, q);
    SameShape(fs0, fs1);
    if Ptr(fs1, q) == 0 {
      TrimNothing(fs1);
      OutsideNothing(fs1, q);
    } else {
      LeafBare(fs1, q);
      PruneTrims(fs1, q);
    }
    SameShape(fs1, fs2);
    TrimTwice(fs0, fs1, fs2);
    OutsideTwice(fs0, fs1, fs2, p, q);
    AboveKept(fs1, fs2, p, i);
    CutLeaf(fs0, fs1, fs2, p, off, d, i);
    NoInner(fs2, p, off, d, i + 1);
    if off >= d { StillZero(fs1, fs2, p, i); }
  }

  lemma NoInner(fs: Fs, p: Path, off: nat, d: nat, n: nat)
    requires Level(fs, p, 1)
    ensures Gone(fs, p, 1, off, d, n)
  {
    hide Ptr;
  }

  ghost predicate AllZero(fs: Fs, p: Path) {
    forall i {:trigger Ptr(fs, p + [i])} :: 0 <= i < fs.a ==> Ptr(fs, p + [i]) == 0
  }

  /** All children done: the indirect block goes if nothing is left in it. */
  lemma {:induction false} CutEnd(fs0: Fs, fs: Fs, p: Path, h: nat, off: nat, d: nat, n: nat)
    requires Cutting(fs0, fs, p, h, off, d, n) && h >= 1 && n >= fs.a
    ensures AllZero(fs, p) ==> PathOK(fs, p) && Cut(fs0, Prune(fs, p), p, h, off, d)
    ensures !AllZero(fs, p) ==> Cut(fs0, fs, p, h, off, d)
  {
    hide Ptr, Inv, Trimmed, Outside, CutTo, Gone, Pow, Scale, Reach, Prune;
    SameShape(fs0, fs);
    CutAll(fs0, fs, p, off, d, n);
    GoneAll(fs, p, h, off, d, n);
    if AllZero(fs, p) {
      EmptyBare(fs, p);
      PruneTrims(fs, p);
      SameShape(fs, Prune(fs, p));
      TrimTwice(fs0, fs, Prune(fs, p));
      OutsideTwice(fs0, fs, Prune(fs, p), p, p);
      CutPruned(fs0, fs, Prune(fs, p), p, off, d, fs.a);
      GoneKept(fs, Prune(fs, p), p, h, off, d, fs.a);
    }
  }
}
