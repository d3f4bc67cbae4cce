/** Record locks on one file (fs/locks.c): the list of locks held on an inode and what it means,
    byte by byte (section 6.5.2 of POSIX.1-1990). */
module FileLocks {

  const OFFSET_MAX := 0x7fffffff

  predicate Int32(x: int) {
    -0x8000_0000 <= x <= 0x7fff_ffff
  }

  /** 32-bit signed arithmetic wraps. */
  function Wrap32(x: int): (r: int)
    ensures Int32(r) && (Int32(x) ==> r == x)
  {
    (x + 0x8000_0000) % 0x1_0000_0000 - 0x8000_0000
  }

  datatype Kind = RdLck | WrLck | UnLck

  /** An entry of file_lock_table, which has NR_FILE_LOCKS slots. */
  datatype FileLock = FileLock(slot: nat, owner: nat, kind: Kind, start: int, end: int)

  predicate Covers(l: FileLock, x: int) {
    l.start <= x <= l.end
  }

  predicate LockOK(l: FileLock) {
    l.kind != UnLck && 0 <= l.start <= l.end <= OFFSET_MAX
  }

  /** Two locks of one owner, in list order: disjoint, and merged if they could be. */
  predicate Apart(a: FileLock, b: FileLock) {
    a.end < b.start && (a.kind == b.kind ==> a.end + 1 < b.start)
  }

  ghost predicate PairOK(L: seq<FileLock>, i: nat, j: nat)
    requires i < j < |L|
  {
    L[i].owner == L[j].owner ==> Apart(L[i], L[j]) && forall m :: i < m < j ==> L[m].owner == L[i].owner
  }

  /** Grouped by owner; within an owner sorted, disjoint and coalesced. */
  ghost predicate ListOK(L: seq<FileLock>) {
    && (forall i :: 0 <= i < |L| ==> LockOK(L[i]))
    && (forall i, j {:trigger PairOK(L, i, j)} :: 0 <= i < j < |L| ==> PairOK(L, i, j))
  }

  /** Owner o holds byte x with a lock of kind k. */
  ghost predicate Holds(L: seq<FileLock>, o: nat, k: Kind, x: int) {
    exists i :: 0 <= i < |L| && L[i].owner == o && L[i].kind == k && Covers(L[i], x)
  }

  /** Who holds what after a request: the owner's bytes in the request get its kind, or none for
      F_UNLCK, and nothing else changes. */
  ghost predicate Painted(L: seq<FileLock>, r: FileLock, o: nat, k: Kind, x: int) {
    if o == r.owner && Covers(r, x) then k == r.kind && k != UnLck else Holds(L, o, k, x)
  }

  // ---- lists that need not be well formed

  /** What even a list that has been left uncoalesced keeps: each entry has a kind and offsets, though perhaps no
      bytes, and each owner's entries are together. */
  ghost predicate Loose(L: seq<FileLock>) {
    Grouped(L) && forall i :: 0 <= i < |L| ==> LooseOK(L[i])
  }

  predicate LooseOK(l: FileLock) {
    l.kind != UnLck && 0 <= l.start <= OFFSET_MAX && -1 <= l.end <= OFFSET_MAX
  }

  ghost predicate Grouped(L: seq<FileLock>) {
    forall i, j, m :: 0 <= i < m < j < |L| && L[i].owner == L[j].owner ==> L[m].owner == L[i].owner
  }

  lemma OKIsLoose(L: seq<FileLock>)
    requires ListOK(L)
    ensures Loose(L)
  {
    forall i, j, m | 0 <= i < m < j < |L| && L[i].owner == L[j].owner
      ensures L[m].owner == L[i].owner
    {
      assert PairOK(L, i, j);
    }
  }

  lemma HoldsConcat(A: seq<FileLock>, B: seq<FileLock>, o: nat, k: Kind, x: int)
    ensures Holds(A + B, o, k, x) <==> Holds(A, o, k, x) || Holds(B, o, k, x)
  {
    var L := A + B;
    if i :| 0 <= i < |A| && A[i].owner == o && A[i].kind == k && Covers(A[i], x) {
      assert L[i] == A[i];
    }
    if i :| 0 <= i < |B| && B[i].owner == o && B[i].kind == k && Covers(B[i], x) {
      assert L[|A| + i] == B[i];
    }
  }

  function Slots(L: seq<FileLock>): seq<nat> {
    seq(|L|, i requires 0 <= i < |L| => L[i].slot)
  }

  lemma ListPair(L: seq<FileLock>, i: nat, j: nat)
    requires ListOK(L) && i < j < |L| && L[i].owner == L[j].owner
    ensures Apart(L[i], L[j])
  {
    assert PairOK(L, i, j);
  }

  /** A byte is held at most once by an owner. */
  lemma OneHolder(L: seq<FileLock>, i: nat, j: nat, x: int)
    requires ListOK(L) && i < |L| && j < |L| && L[i].owner == L[j].owner && Covers(L[i], x) && Covers(L[j], x)
    ensures i == j
  {
    if i < j { ListPair(L, i, j); } else if j < i { ListPair(L, j, i); }
  }

  /** So an owner holds a byte with at most one kind. */
  lemma OneKind(L: seq<FileLock>, o: nat, k: Kind, k': Kind, x: int)
    requires ListOK(L) && Holds(L, o, k, x) && Holds(L, o, k', x)
    ensures k == k'
  {
    var i :| 0 <= i < |L| && L[i].owner == o && L[i].kind == k && Covers(L[i], x);
    var j :| 0 <= j < |L| && L[j].owner == o && L[j].kind == k' && Covers(L[j], x);
    OneHolder(L, i, j, x);
  }

  // ---- deleting, shrinking and inserting an entry ----

  function Delete(L: seq<FileLock>, i: nat): seq<FileLock>
    requires i < |L|
  {
    L[..i] + L[i + 1..]
  }

  lemma DeleteOK(L: seq<FileLock>, i: nat)
    requires ListOK(L) && i < |L|
    ensures ListOK(Delete(L, i))
  {
    var D := Delete(L, i);
    forall a, b | 0 <= a < b < |D|
      ensures PairOK(D, a, b)
    {
      var a', b' := if a < i then a else a + 1, if b < i then b else b + 1;
      assert PairOK(L, a', b');
      forall m | a < m < b && D[a].owner == D[b].owner
        ensures D[m].owner == D[a].owner
      {
        assert D[m] == L[if m < i then m else m + 1];
      }
    }
  }

  lemma DeleteHolds(L: seq<FileLock>, i: nat, o: nat, k: Kind, x: int)
    requires ListOK(L) && i < |L|
    ensures Holds(Delete(L, i), o, k, x) <==> Holds(L, o, k, x) && !(o == L[i].owner && Covers(L[i], x))
  {
    var D := Delete(L, i);
    if Holds(D, o, k, x) {
      var j :| 0 <= j < |D| && D[j].owner == o && D[j].kind == k && Covers(D[j], x);
      var j' := if j < i then j else j + 1;
      assert L[j'] == D[j];
      if o == L[i].owner && Covers(L[i], x) { OneHolder(L, i, j', x); }
    }
    if Holds(L, o, k, x) && !(o == L[i].owner && Covers(L[i], x)) {
      var j :| 0 <= j < |L| && L[j].owner == o && L[j].kind == k && Covers(L[j], x);
      assert D[if j < i then j else j - 1] == L[j];
    }
  }

  lemma ShrinkOK(L: seq<FileLock>, i: nat, l: FileLock)
    requires ListOK(L) && i < |L| && LockOK(l)
    requires l.owner == L[i].owner && l.kind == L[i].kind && L[i].start <= l.start && l.end <= L[i].end
    ensures ListOK(L[i := l])
  {
    var D := L[i := l];
    forall a, b | 0 <= a < b < |D|
      ensures PairOK(D, a, b)
    {
      assert PairOK(L, a, b);
    }
  }

  lemma ShrinkHolds(L: seq<FileLock>, i: nat, l: FileLock, o: nat, k: Kind, x: int)
    requires ListOK(L) && i < |L|
    requires l.owner == L[i].owner && l.kind == L[i].kind && L[i].start <= l.start && l.end <= L[i].end
    ensures Holds(L[i := l], o, k, x) <==>
      Holds(L, o, k, x) && !(o == l.owner && Covers(L[i], x) && !Covers(l, x))
  {
    var D := L[i := l];
    if Holds(D, o, k, x) {
      var j :| 0 <= j < |D| && D[j].owner == o && D[j].kind == k && Covers(D[j], x);
      assert L[j].owner == o && L[j].kind == k && Covers(L[j], x);
      if o == l.owner && Covers(L[i], x) { OneHolder(L, i, j, x); }
    }
    if Holds(L, o, k, x) && !(o == l.owner && Covers(L[i], x) && !Covers(l, x)) {
      var j :| 0 <= j < |L| && L[j].owner == o && L[j].kind == k && Covers(L[j], x);
      assert D[j].owner == o && D[j].kind == k && Covers(D[j], x);
    }
  }

  function Insert(L: seq<FileLock>, n: nat, l: FileLock): seq<FileLock>
    requires n <= |L|
  {
    L[..n] + [l] + L[n..]
  }

  /** Position n is at, or next to, the owner's group. */
  ghost predicate AtGroup(L: seq<FileLock>, n: nat, o: nat)
    requires n <= |L|
  {
    && ((n > 0 && L[n - 1].owner == o) || forall i :: 0 <= i < n ==> L[i].owner != o)
    && ((n < |L| && L[n].owner == o) || forall i :: n <= i < |L| ==> L[i].owner != o)
  }

  ghost predicate FitsAt(L: seq<FileLock>, n: nat, l: FileLock)
    requires n <= |L|
  {
    && AtGroup(L, n, l.owner)
    && (n > 0 && n < |L| && L[n - 1].owner == L[n].owner ==> L[n].owner == l.owner)
    && (forall i :: 0 <= i < n && L[i].owner == l.owner ==> Apart(L[i], l))
    && (forall i :: n <= i < |L| && L[i].owner == l.owner ==> Apart(l, L[i]))
  }

  lemma InsertOK(L: seq<FileLock>, n: nat, l: FileLock)
    requires ListOK(L) && LockOK(l) && n <= |L| && FitsAt(L, n, l)
    ensures ListOK(Insert(L, n, l))
  {
    var D := Insert(L, n, l);
    assert D[n] == l && forall i {:trigger D[i]} :: 0 <= i < |D| && i != n ==> D[i] == L[if i < n then i else i - 1];
    forall a, b | 0 <= a < b < |D|
      ensures PairOK(D, a, b)
    {
      InsertPair(L, n, l, a, b);
    }
  }

  lemma InsertPair(L: seq<FileLock>, n: nat, l: FileLock, a: nat, b: nat)
    requires ListOK(L) && n <= |L| && FitsAt(L, n, l)
    requires a < b < |L| + 1
    ensures PairOK(Insert(L, n, l), a, b)
  {
    var D := Insert(L, n, l);
    var o := D[a].owner;
    if o == D[b].owner {
      if a != n && b != n {
        var a', b' := if a < n then a else a - 1, if b < n then b else b - 1;
        assert D[a] == L[a'] && D[b] == L[b'] && PairOK(L, a', b');
        forall m | a < m < b
          ensures D[m].owner == o
        {
          if m == n {
            assert L[n - 1].owner == o && L[n].owner == o;
          } else {
            assert D[m] == L[if m < n then m else m - 1];
          }
        }
      } else if a == n {
        assert D[b] == L[b - 1];
        forall m | a < m < b
          ensures D[m].owner == o
        {
          assert D[m] == L[m - 1] && L[n].owner == o;
          if n < m - 1 { assert PairOK(L, n, b - 1); }
        }
      } else {
        assert D[a] == L[a];
        forall m | a < m < b
          ensures D[m].owner == o
        {
          assert D[m] == L[m] && L[n - 1].owner == o;
          if m < n - 1 { assert PairOK(L, a, n - 1); }
        }
      }
    }
  }

  lemma InsertHolds(L: seq<FileLock>, n: nat, l: FileLock, o: nat, k: Kind, x: int)
    requires n <= |L|
    ensures Holds(Insert(L, n, l), o, k, x) <==> Holds(L, o, k, x) || (o == l.owner && k == l.kind && Covers(l, x))
  {
    var D := Insert(L, n, l);
    assert D[n] == l;
    if Holds(D, o, k, x) {
      var j :| 0 <= j < |D| && D[j].owner == o && D[j].kind == k && Covers(D[j], x);
      if j != n { assert D[j] == L[if j < n then j else j - 1]; }
    }
    if Holds(L, o, k, x) {
      var j :| 0 <= j < |L| && L[j].owner == o && L[j].kind == k && Covers(L[j], x);
      assert D[if j < n then j else j + 1] == L[j];
    }
  }
}
