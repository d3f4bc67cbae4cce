/** A run of requests of one owner that brings lock_it to fail with the list changed (fs/locks.c:290-391). */
module LockRun {
  import opened FileLocks
  import opened LockSteps
  import opened LockTrace
  import opened LockFail

  function Req(o: nat, k: Kind, start: int, end: int): FileLock {
    FileLock(0, o, k, start, end)
  }

  function Reads(slot: nat, o: nat, start: int, end: int): FileLock {
    FileLock(slot, o, RdLck, start, end)
  }

  /** A read lock up to the end of the file, and a request to read-lock all of it: they are not merged. */
  lemma ReadAll(o: nat, a: nat, b: nat, free: seq<nat>)
    ensures Applied([Reads(a, o, 100, OFFSET_MAX)], [b] + free, Req(o, RdLck, 0, OFFSET_MAX))
         == (Ok, [Reads(b, o, 0, OFFSET_MAX), Reads(a, o, 100, OFFSET_MAX)], free)
  {
    var list, req := [Reads(a, o, 100, OFFSET_MAX)], Req(o, RdLck, 0, OFFSET_MAX);
    var s := Start(list, [b] + free, req);
    assert Looked(req, s) == s.(stop := true);
    assert Scanned(req, s) == s.(stop := true);
    var r := Ended(req, s.(stop := true));
    assert r.1 == [Reads(b, o, 0, OFFSET_MAX), list[0]] && r.2 == free;
  }

  /** The first of them is split by an unlock; the other one goes on holding the bytes. */
  lemma FirstUnlock(o: nat, a: nat, b: nat, c: nat, free: seq<nat>)
    ensures Applied([Reads(b, o, 0, OFFSET_MAX), Reads(a, o, 100, OFFSET_MAX)], [c] + free, Req(o, UnLck, 150, 200))
         == (Ok, [Reads(c, o, 0, 149), Reads(b, o, 201, OFFSET_MAX), Reads(a, o, 100, OFFSET_MAX)], free)
  {
    var list, req := [Reads(b, o, 0, OFFSET_MAX), Reads(a, o, 100, OFFSET_MAX)], Req(o, UnLck, 150, 200);
    var s := Start(list, [c] + free, req);
    var u := Looked(req, s);
    assert u == s.(added := true, left := 0, stop := true, right := true);
    assert Scanned(req, s) == u;
    assert Ended(req, u).1 == [Reads(c, o, 0, 149), Reads(b, o, 201, OFFSET_MAX), list[1]];
  }

  lemma SecondUnlock(o: nat, a: nat, b: nat, c: nat, d: nat, free: seq<nat>)
    ensures Applied([Reads(c, o, 0, 149), Reads(b, o, 201, OFFSET_MAX), Reads(a, o, 100, OFFSET_MAX)], [d] + free,
                    Req(o, UnLck, 251, 300))
         == (Ok, [Reads(c, o, 0, 149), Reads(d, o, 201, 250), Reads(b, o, 301, OFFSET_MAX),
                  Reads(a, o, 100, OFFSET_MAX)], free)
  {
    var list := [Reads(c, o, 0, 149), Reads(b, o, 201, OFFSET_MAX), Reads(a, o, 100, OFFSET_MAX)];
    var req := Req(o, UnLck, 251, 300);
    var s := Start(list, [d] + free, req);
    var t := Looked(req, s);
    assert t == s.(done := list[..1], rest := list[1..]);
    var u := Looked(req, t);
    assert u == t.(added := true, left := 1, stop := true, right := true);
    assert Scanned(req, t) == u && Scanned(req, s) == u;
    assert Ended(req, u).1 == [list[0], Reads(d, o, 201, 250), Reads(b, o, 301, OFFSET_MAX), list[2]];
  }

  /** The third frees a lock and trims the one that was never merged. */
  lemma ThirdUnlock(o: nat, a: nat, b: nat, c: nat, d: nat, free: seq<nat>)
    ensures Applied([Reads(c, o, 0, 149), Reads(d, o, 201, 250), Reads(b, o, 301, OFFSET_MAX),
                     Reads(a, o, 100, OFFSET_MAX)], free, Req(o, UnLck, 301, OFFSET_MAX))
         == (Ok, [Reads(c, o, 0, 149), Reads(d, o, 201, 250), Reads(a, o, 100, 300)], [b] + free)
  {
    var list := [Reads(c, o, 0, 149), Reads(d, o, 201, 250), Reads(b, o, 301, OFFSET_MAX),
                 Reads(a, o, 100, OFFSET_MAX)];
    var req := Req(o, UnLck, 301, OFFSET_MAX);
    var s := Start(list, free, req);
    var s1 := Looked(req, s);
    assert s1 == s.(done := list[..1], rest := list[1..]);
    var s2 := Looked(req, s1);
    assert s2 == s.(done := list[..2], rest := list[2..]);
    var s3 := Looked(req, s2);
    assert s3 == s2.(rest := list[3..], free := [b] + free, added := true);
    var s4 := Looked(req, s3);
    assert s4 == s3.(done := list[..2] + [list[3]], rest := [], left := 2);
    assert Scanned(req, s3) == s4 && Scanned(req, s2) == s4 && Scanned(req, s1) == s4 && Scanned(req, s) == s4;
    assert Ended(req, s4).1 == [list[0], list[1], Reads(a, o, 100, 300)];
  }

  /** The list that is left. */
  function Left(o: nat, a: nat, c: nat, d: nat): seq<FileLock> {
    [Reads(c, o, 0, 149), Reads(d, o, 201, 250), Reads(a, o, 100, 300)]
  }

  /** With no free entry, a request to write-lock 201..250 fails and yet turns those bytes' read lock into a write
      lock. */
  lemma FailsChanged(o: nat, a: nat, c: nat, d: nat)
    ensures var L, req := Left(o, a, c, d), Req(o, WrLck, 201, 250);
      && Fails(L, [], req) && Alters(L, req)
      && Applied(L, [], req) == (ENoLck, L[1 := FileLock(d, o, WrLck, 201, 250)], [])
      && Holds(L[1 := FileLock(d, o, WrLck, 201, 250)], o, WrLck, 201) && !Holds(L, o, WrLck, 201)
  {
    var L, req := Left(o, a, c, d), Req(o, WrLck, 201, 250);
    assert From(L, o) == 0 && L[0..] == L;
    assert L[1..] == [L[1], L[2]] && L[2..] == [L[2]];
    assert Skipped(req, 201, 250, L) == 1 && FirstMet(L, req) == 1;
    assert TakenAs(L[1], req) == FileLock(d, o, WrLck, 201, 250);
    assert Skipped(req, 201, 250, L[2..]) == 0;
    FailsWhen(L, [], req);
    var F := L[1 := FileLock(d, o, WrLck, 201, 250)];
    assert F[1].owner == o && F[1].kind == WrLck && Covers(F[1], 201);
  }

  /** One owner's four requests, each of them granted, and the fifth, when others have used the last entry.  After the
      second he still holds what he unlocked. */
  lemma FailRun(o: nat, a: nat, b: nat, c: nat, d: nat)
    ensures ListOK([Reads(a, o, 100, OFFSET_MAX)])
    ensures var (s1, L1, f1) := Applied([Reads(a, o, 100, OFFSET_MAX)], [b, c, d], Req(o, RdLck, 0, OFFSET_MAX));
      var (s2, L2, f2) := Applied(L1, f1, Req(o, UnLck, 150, 200));
      var (s3, L3, f3) := Applied(L2, f2, Req(o, UnLck, 251, 300));
      var (s4, L4, f4) := Applied(L3, f3, Req(o, UnLck, 301, OFFSET_MAX));
      var (s5, L5, f5) := Applied(L4, [], Req(o, WrLck, 201, 250));
      && s1 == s2 == s3 == s4 == Ok && (forall x :: 150 <= x <= 200 ==> Holds(L2, o, RdLck, x))
      && s5 == ENoLck && L5 != L4 && !Holds(L4, o, WrLck, 201) && Holds(L5, o, WrLck, 201)
  {
    hide Applied;
    ReadAll(o, a, b, [c, d]);
    FirstUnlock(o, a, b, c, [d]);
    SecondUnlock(o, a, b, c, d, []);
    ThirdUnlock(o, a, b, c, d, []);
    FailsChanged(o, a, c, d);
    assert [b, c, d] == [b] + [c, d] && [c, d] == [c] + [d] && [d] == [d] + [];
    var L2 := [Reads(c, o, 0, 149), Reads(b, o, 201, OFFSET_MAX), Reads(a, o, 100, OFFSET_MAX)];
    forall x | 150 <= x <= 200 ensures Holds(L2, o, RdLck, x) { assert Covers(L2[2], x); }
  }
}
