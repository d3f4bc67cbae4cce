/** What kmalloc's invariant keeps when a page comes in, an object is given back, and a page goes out
    (lib/malloc.c:235-266, 474-499). */
module KmallocSteps {
  import opened KmallocHeap

  // ---- a new page (lib/malloc.c:235-266)

  function Upto(n: nat): (s: seq<nat>)
    ensures |s| == n && forall k :: 0 <= k < n ==> s[k] == k
  {
    seq(n, k requires 0 <= k < n => k)
  }

  /** Memory after the set-up loop: each object of the page holds the next one's address. */
  ghost predicate SetUp(mem: map<nat, nat>, mem': map<nat, nat>, p: nat, i: nat)
    requires i < BUCKETS
  {
    && (forall k :: 0 <= k < Count(i) ==>
      Word(mem', Addr(p, i, k)) == if k + 1 < Count(i) then Addr(p, i, k + 1) else 0)
    && forall x :: PageOf(x) != p ==> Word(mem', x) == Word(mem, x)
  }

  ghost function Opened(h: Heap, mem': map<nat, nat>, p: nat, i: nat): Heap
    requires i < |h.chain|
  {
    Heap(h.chain[i := [p] + h.chain[i]], h.desc[p := Desc(i, p, 0)], mem')
  }

  lemma OpenBucket(mem: map<nat, nat>, mem': map<nat, nat>, p: nat, i: nat, live: map<nat, Object>)
    requires i < BUCKETS && PageAddress(p) && SetUp(mem, mem', p, i) && forall a :: a in live ==> PageOf(a) != p
    ensures Bucket(mem', p, Desc(i, p, 0), Upto(Count(i)), live)
  {
    var d, fl := Desc(i, p, 0), Upto(Count(i));
    SizeCount(i);
    assert Addr(p, i, 0) == p;
    hide Addr, Size, Count, Times;
    forall j | 0 <= j < |fl|
      ensures fl[j] < Count(i) && Word(mem', FreeAt(p, i, fl, j)) == FreeAt(p, i, fl, j + 1)
    {
      assert fl[j] == j && FreeAt(p, i, fl, j) == Addr(p, i, j);
      assert Word(mem', Addr(p, i, j)) == if j + 1 < Count(i) then Addr(p, i, j + 1) else 0;
      assert FreeAt(p, i, fl, j + 1) == if j + 1 < Count(i) then Addr(p, i, j + 1) else 0;
    }
    assert Threaded(mem', p, d, fl);
    forall k | 0 <= k < Count(i)
      ensures Addr(p, i, k) !in live && k in fl
    {
      AddrIn(p, i, k);
      assert fl[k] == k;
    }
  }

  lemma OpenKeeps(h: Heap, mem': map<nat, nat>, frees: map<nat, seq<nat>>, live: map<nat, Object>, p: nat, i: nat)
    requires Inv(h, frees, live) && PageAddress(p) && p !in h.desc && i < BUCKETS && SetUp(h.mem, mem', p, i)
    ensures |h.chain| == BUCKETS && Inv(Opened(h, mem', p, i), frees[p := Upto(Count(i))], live)
  {
    hide Bucket, LiveOK, ChainOK;
    var h', frees' := Opened(h, mem', p, i), frees[p := Upto(Count(i))];
    forall a | a in live
      ensures PageOf(a) != p && LiveOK(h'.desc, a, live[a])
    {
      LiveInPage(h, frees, live, a);
      LiveStays(h.desc, h'.desc, a, live[a]);
    }
    OpenBucket(h.mem, mem', p, i, live);
    forall q | q in h'.desc
      ensures Bucket(h'.mem, q, h'.desc[q], frees'[q], live)
    {
      if q != p {
        OtherPage(h.mem, mem', q, h.desc[q], frees[q], live, live, p);
      }
    }
    OpenChains(h.chain, h.desc, p, i);
  }

  lemma OpenChains(chain: seq<seq<nat>>, desc: map<nat, Desc>, p: nat, i: nat)
    requires Chains(chain, desc) && p !in desc && i < BUCKETS
    ensures Chains(chain[i := [p] + chain[i]], desc[p := Desc(i, p, 0)])
  {
    var chain', desc' := chain[i := [p] + chain[i]], desc[p := Desc(i, p, 0)];
    forall j | 0 <= j < BUCKETS
      ensures ChainOK(chain'[j], desc', j)
    {
      assert ChainOK(chain[j], desc, j);
    }
    forall q | q in desc'
      ensures desc'[q].bucket < BUCKETS && q in chain'[desc'[q].bucket]
    {
      if q == p {
        assert chain'[i][0] == p;
      }
    }
  }

  // ---- an object given back (lib/malloc.c:474-478)

  ghost function GivenBack(h: Heap, p: nat, a: nat): Heap
    requires p in h.desc && h.desc[p].refcnt > 0
  {
    var d := h.desc[p];
    h.(desc := h.desc[p := d.(freeptr := a, refcnt := d.refcnt - 1)], mem := h.mem[a := d.freeptr])
  }

  lemma GiveBackBucket(mem: map<nat, nat>, p: nat, d: Desc, fl: seq<nat>, live: map<nat, Object>, a: nat, k: nat)
    requires Bucket(mem, p, d, fl, live) && a in live && k < Count(d.bucket) && a == Addr(p, d.bucket, k)
    ensures d.refcnt > 0
    ensures Bucket(mem[a := d.freeptr], p, d.(freeptr := a, refcnt := d.refcnt - 1), [k] + fl, live - {a})
  {
    var mem', fl', live' := mem[a := d.freeptr], [k] + fl, live - {a};
    var i := d.bucket;
    assert k !in fl;
    AtMost(fl', Count(i));
    var d' := d.(freeptr := a, refcnt := d.refcnt - 1);
    forall j | 0 <= j < |fl'|
      ensures fl'[j] < Count(i) && Word(mem', FreeAt(p, i, fl', j)) == FreeAt(p, i, fl', j + 1)
    {
      assert FreeAt(p, i, fl', j + 1) == FreeAt(p, i, fl, j);
      if j > 0 {
        assert FreeAt(p, i, fl', j) == FreeAt(p, i, fl, j - 1) && fl[j - 1] in fl;
        AddrApart(p, i, fl[j - 1], k);
      }
    }
    assert Threaded(mem', p, d', fl');
    forall m | 0 <= m < Count(i)
      ensures Addr(p, i, m) in live' <==> m !in fl'
    {
      if m != k {
        AddrApart(p, i, m, k);
        assert m in fl' <==> m in fl;
      } else {
        assert fl'[0] == m;
      }
    }
  }

  lemma GiveBackKeeps(h: Heap, frees: map<nat, seq<nat>>, live: map<nat, Object>, a: nat)
    requires Inv(h, frees, live) && a in live
    ensures PageOf(a) in h.desc && PageOf(a) in frees && PageOf(a) == live[a].page && h.desc[PageOf(a)].refcnt > 0
    ensures Inv(GivenBack(h, PageOf(a), a), frees[PageOf(a) := [live[a].slot] + frees[PageOf(a)]], live - {a})
  {
    hide Bucket, Chains;
    var p, k := PageOf(a), live[a].slot;
    LiveInPage(h, frees, live, a);
    assert LiveOK(h.desc, a, live[a]) && Bucket(h.mem, p, h.desc[p], frees[p], live);
    GiveBackBucket(h.mem, p, h.desc[p], frees[p], live, a, k);
    var h', frees', live' := GivenBack(h, p, a), frees[p := [k] + frees[p]], live - {a};
    forall q | q in h'.desc
      ensures Bucket(h'.mem, q, h'.desc[q], frees'[q], live')
    {
      if q != p {
        OtherPage(h.mem, h'.mem, q, h.desc[q], frees[q], live, live', p);
      }
    }
    forall b | b in live'
      ensures LiveOK(h'.desc, b, live'[b])
    {
      LiveInPage(h, frees, live, b);
      LiveStays(h.desc, h'.desc, b, live[b]);
    }
    SameChains(h.chain, h.desc, h'.desc);
  }

  // ---- a page given up (lib/malloc.c:479-498)

  ghost function Released(h: Heap, p: nat, j: nat): Heap
    requires p in h.desc && h.desc[p].bucket < |h.chain| && j < |h.chain[h.desc[p].bucket]|
  {
    var i := h.desc[p].bucket;
    h.(chain := h.chain[i := Without(h.chain[i], j)], desc := h.desc - {p})
  }

  lemma ReleaseKeeps(h: Heap, frees: map<nat, seq<nat>>, live: map<nat, Object>, p: nat, j: nat)
    requires Inv(h, frees, live) && p in h.desc && h.desc[p].refcnt == 0
    requires h.desc[p].bucket < |h.chain| && j < |h.chain[h.desc[p].bucket]| && h.chain[h.desc[p].bucket][j] == p
    ensures Inv(Released(h, p, j), frees - {p}, live)
  {
    hide Bucket, Chains;
    IdleIffNoneLive(h, frees, live, p);
    var h' := Released(h, p, j);
    forall b | b in live
      ensures LiveOK(h'.desc, b, live[b])
    {
      LiveInPage(h, frees, live, b);
      LiveStays(h.desc, h'.desc, b, live[b]);
    }
    ReleaseChains(h.chain, h.desc, p, j);
  }

  lemma ReleaseChains(chain: seq<seq<nat>>, desc: map<nat, Desc>, p: nat, j: nat)
    requires Chains(chain, desc) && p in desc && j < |chain[desc[p].bucket]| && chain[desc[p].bucket][j] == p
    ensures Chains(chain[desc[p].bucket := Without(chain[desc[p].bucket], j)], desc - {p})
  {
    var i, desc' := desc[p].bucket, desc - {p};
    var chain' := chain[i := Without(chain[i], j)];
    forall m | 0 <= m < BUCKETS
      ensures ChainOK(chain'[m], desc', m)
    {
      assert ChainOK(chain[m], desc, m);
      if m == i {
        ReleaseChain(chain[i], desc, p, i, j);
      }
    }
    forall q | q in desc'
      ensures desc'[q].bucket < BUCKETS && q in chain'[desc'[q].bucket]
    {
      var b := desc[q].bucket;
      var n :| 0 <= n < |chain[b]| && chain[b][n] == q;
      if b == i {
        assert q == Without(chain[i], j)[if n < j then n else n - 1];
      }
    }
  }

  lemma ReleaseChain(pages: seq<nat>, desc: map<nat, Desc>, p: nat, i: nat, j: nat)
    requires ChainOK(pages, desc, i) && j < |pages| && pages[j] == p
    ensures ChainOK(Without(pages, j), desc - {p}, i)
  {
  }
}
