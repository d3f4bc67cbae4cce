/** The buckets of kmalloc (lib/malloc.c): pages cut into objects of one size, with the free objects of a page
    threaded through the objects themselves. */
module KmallocHeap {
  const PAGE_SIZE := 4096
  const BUCKETS := 9

  /** bucket_dir (lib/malloc.c:117-129). */
  function Size(i: nat): nat
    requires i < BUCKETS
  {
    if i == 0 then 16 else if i == 1 then 32 else if i == 2 then 64 else if i == 3 then 128 else if i == 4 then 256
    else if i == 5 then 512 else if i == 6 then 1024 else if i == 7 then 2048 else 4096
  }

  /** The sizes double from 16 to a page. */
  lemma SizesDouble(i: nat)
    requires i < BUCKETS
    ensures Size(0) == 16 && Size(BUCKETS - 1) == PAGE_SIZE && (i > 0 ==> Size(i) == 2 * Size(i - 1))
  {
  }

  function Count(i: nat): nat
    requires i < BUCKETS
  {
    PAGE_SIZE / Size(i)
  }

  function Times(k: nat, s: nat): nat {
    if k == 0 then 0 else Times(k - 1, s) + s
  }

  lemma {:induction false} TimesIs(k: nat, s: nat)
    ensures Times(k, s) == k * s
  {
    if k > 0 {
      TimesIs(k - 1, s);
    }
  }

  lemma {:induction false} TimesMono(k: nat, m: nat, s: nat)
    requires k < m
    ensures Times(k, s) + s <= Times(m, s)
  {
    if k < m - 1 {
      TimesMono(k, m - 1, s);
    }
  }

  lemma SizeCount(i: nat)
    requires i < BUCKETS
    ensures Times(Count(i), Size(i)) == PAGE_SIZE && Size(i) >= 16 && Count(i) >= 1
  {
    TimesIs(Count(i), Size(i));
  }

  /** Object number k of a page. */
  function Addr(page: nat, i: nat, k: nat): nat
    requires i < BUCKETS
  {
    page + Times(k, Size(i))
  }

  predicate PageAddress(p: nat) {
    p > 0 && p % PAGE_SIZE == 0
  }

  function PageOf(a: nat): nat {
    a - a % PAGE_SIZE
  }

  /** An object lies in its page. */
  lemma AddrIn(p: nat, i: nat, k: nat)
    requires PageAddress(p) && i < BUCKETS && k < Count(i)
    ensures p <= Addr(p, i, k) && Addr(p, i, k) + Size(i) <= p + PAGE_SIZE && PageOf(Addr(p, i, k)) == p
  {
    SizeCount(i);
    TimesMono(k, Count(i), Size(i));
  }

  /** Objects do not overlap. */
  lemma AddrApart(p: nat, i: nat, k: nat, m: nat)
    requires PageAddress(p) && i < BUCKETS && k < Count(i) && m < Count(i) && k != m
    ensures Addr(p, i, k) + Size(i) <= Addr(p, i, m) || Addr(p, i, m) + Size(i) <= Addr(p, i, k)
    ensures Addr(p, i, k) != Addr(p, i, m)
  {
    SizeCount(i);
    if k < m {
      TimesMono(k, m, Size(i));
    } else {
      TimesMono(m, k, Size(i));
    }
  }

  lemma PagesApart(p: nat, q: nat)
    requires PageAddress(p) && PageAddress(q) && p != q
    ensures p + PAGE_SIZE <= q || q + PAGE_SIZE <= p
  {
  }

  /** A bucket descriptor in use, but for its page, which names it here, and its link. */
  datatype Desc = Desc(bucket: nat, freeptr: nat, refcnt: nat)

  /** The chains list the pages of each bucket; memory holds a word at each address. */
  datatype Heap = Heap(chain: seq<seq<nat>>, desc: map<nat, Desc>, mem: map<nat, nat>)

  /** An object handed out: what was asked for and where it was put. */
  datatype Object = Object(len: nat, page: nat, slot: nat)

  function Word(mem: map<nat, nat>, a: nat): nat {
    if a in mem then mem[a] else 0
  }

  ghost predicate Distinct(s: seq<nat>) {
    forall i, j :: 0 <= i < j < |s| ==> s[i] != s[j]
  }

  /** The address of the j'th free object, NULL after the last. */
  function FreeAt(page: nat, i: nat, fl: seq<nat>, j: nat): nat
    requires i < BUCKETS
  {
    if j < |fl| then Addr(page, i, fl[j]) else 0
  }

  /** fl is the list threaded through memory from the descriptor's freeptr. */
  ghost predicate Threaded(mem: map<nat, nat>, page: nat, d: Desc, fl: seq<nat>)
    requires d.bucket < BUCKETS
  {
    && d.freeptr == FreeAt(page, d.bucket, fl, 0)
    && (forall j :: 0 <= j < |fl| ==>
      fl[j] < Count(d.bucket) && Word(mem, FreeAt(page, d.bucket, fl, j)) == FreeAt(page, d.bucket, fl, j + 1))
  }

  /** The free list and the live objects partition the page, and refcnt counts the live ones. */
  ghost predicate Bucket(mem: map<nat, nat>, page: nat, d: Desc, fl: seq<nat>, live: map<nat, Object>) {
    && d.bucket < BUCKETS && PageAddress(page)
    && Threaded(mem, page, d, fl) && Distinct(fl)
    && d.refcnt + |fl| == Count(d.bucket)
    && forall k :: 0 <= k < Count(d.bucket) ==> (Addr(page, d.bucket, k) in live <==> k !in fl)
  }

  ghost predicate LiveOK(desc: map<nat, Desc>, a: nat, o: Object) {
    && o.page in desc && desc[o.page].bucket < BUCKETS && PageAddress(o.page) && o.slot < Count(desc[o.page].bucket)
    && a == Addr(o.page, desc[o.page].bucket, o.slot) && o.len <= Size(desc[o.page].bucket)
  }

  ghost predicate Chains(chain: seq<seq<nat>>, desc: map<nat, Desc>) {
    && |chain| == BUCKETS
    && (forall i :: 0 <= i < BUCKETS ==> ChainOK(chain[i], desc, i))
    && forall p :: p in desc ==> desc[p].bucket < BUCKETS && p in chain[desc[p].bucket]
  }

  ghost predicate ChainOK(pages: seq<nat>, desc: map<nat, Desc>, i: nat) {
    Distinct(pages) && forall j :: 0 <= j < |pages| ==> pages[j] in desc && desc[pages[j]].bucket == i
  }

  ghost predicate Inv(h: Heap, frees: map<nat, seq<nat>>, live: map<nat, Object>) {
    && Chains(h.chain, h.desc)
    && frees.Keys == h.desc.Keys
    && (forall p :: p in h.desc ==> Bucket(h.mem, p, h.desc[p], frees[p], live))
    && forall a :: a in live ==> LiveOK(h.desc, a, live[a])
  }

  /** Every page, but for one in the making, has a live object. */
  ghost predicate NoneIdle(desc: map<nat, Desc>, made: set<nat>) {
    forall p :: p in desc && p !in made ==> desc[p].refcnt > 0
  }

  ghost predicate Inside(o: Object, a: nat, x: nat) {
    a <= x < a + o.len
  }

  /** The words of live objects have not changed. */
  ghost predicate Intact(mem: map<nat, nat>, mem': map<nat, nat>, live: map<nat, Object>) {
    forall a, x :: a in live && Inside(live[a], a, x) ==> Word(mem', x) == Word(mem, x)
  }

  lemma ChainsOf(h: Heap, frees: map<nat, seq<nat>>, live: map<nat, Object>)
    requires Inv(h, frees, live)
    ensures |h.chain| == BUCKETS && frees.Keys == h.desc.Keys && 0 !in h.desc
    ensures forall i :: 0 <= i < BUCKETS ==> ChainOK(h.chain[i], h.desc, i)
    ensures forall p :: p in h.desc ==> h.desc[p].bucket < BUCKETS && p in h.chain[h.desc[p].bucket]
  {
  }

  // ---- what the invariant says of live objects

  /** Live objects lie within one page and are as long as asked. */
  lemma LiveInPage(h: Heap, frees: map<nat, seq<nat>>, live: map<nat, Object>, a: nat)
    requires Inv(h, frees, live) && a in live
    ensures PageOf(a) in h.desc && PageOf(a) == live[a].page && PageAddress(PageOf(a))
    ensures a + live[a].len <= PageOf(a) + PAGE_SIZE && a > 0
  {
    assert LiveOK(h.desc, a, live[a]);
    AddrIn(live[a].page, h.desc[live[a].page].bucket, live[a].slot);
  }

  /** No two live objects overlap. */
  lemma LiveApart(h: Heap, frees: map<nat, seq<nat>>, live: map<nat, Object>, a: nat, b: nat)
    requires Inv(h, frees, live) && a in live && b in live && a != b
    ensures a + live[a].len <= b || b + live[b].len <= a
  {
    var x, y := live[a], live[b];
    LiveInPage(h, frees, live, a);
    LiveInPage(h, frees, live, b);
    assert LiveOK(h.desc, a, x) && LiveOK(h.desc, b, y);
    if x.page == y.page {
      AddrApart(x.page, h.desc[x.page].bucket, x.slot, y.slot);
    } else {
      PagesApart(x.page, y.page);
    }
  }

  /** refcnt is zero exactly when the page has no live object. */
  lemma IdleIffNoneLive(h: Heap, frees: map<nat, seq<nat>>, live: map<nat, Object>, p: nat)
    requires Inv(h, frees, live) && p in h.desc
    ensures h.desc[p].refcnt == 0 <==> forall a :: a in live ==> PageOf(a) != p
  {
    var d, fl := h.desc[p], frees[p];
    assert Bucket(h.mem, p, d, fl, live);
    if d.refcnt == 0 {
      forall a | a in live
        ensures PageOf(a) != p
      {
        LiveInPage(h, frees, live, a);
        assert LiveOK(h.desc, a, live[a]);
        if live[a].page == p {
          Full(fl, Count(d.bucket), live[a].slot);
        }
      }
    } else {
      var k := Missing(fl, Count(d.bucket));
      AddrIn(p, d.bucket, k);
    }
  }

  function Without(s: seq<nat>, i: nat): seq<nat>
    requires i < |s|
  {
    s[..i] + s[i + 1..]
  }

  lemma WithoutDistinct(s: seq<nat>, i: nat, n: nat)
    requires i < |s| && Distinct(s) && s[i] + 1 == n && forall j :: 0 <= j < |s| ==> s[j] < n
    ensures Distinct(Without(s, i)) && forall j :: 0 <= j < |s| - 1 ==> Without(s, i)[j] < n - 1
  {
  }

  lemma {:induction false} AtMost(s: seq<nat>, n: nat)
    requires Distinct(s) && forall j :: 0 <= j < |s| ==> s[j] < n
    ensures |s| <= n
  {
    if s != [] {
      assert s[0] < n;
      if i :| 0 <= i < |s| && s[i] == n - 1 {
        WithoutDistinct(s, i, n);
        AtMost(Without(s, i), n - 1);
      } else {
        AtMost(s, n - 1);
      }
    }
  }

  /** A list of all n objects has each of them. */
  lemma Full(fl: seq<nat>, n: nat, k: nat)
    requires Distinct(fl) && |fl| == n && k < n && forall j :: 0 <= j < n ==> fl[j] < n
    ensures k in fl
  {
    if k !in fl {
      AtMost(fl + [k], n);
    }
  }

  lemma {:induction false} Missing(fl: seq<nat>, n: nat) returns (k: nat)
    requires Distinct(fl) && |fl| < n && forall j :: 0 <= j < |fl| ==> fl[j] < n
    ensures k < n && k !in fl
  {
    if i :| 0 <= i < |fl| && fl[i] == n - 1 {
      WithoutDistinct(fl, i, n);
      k := Missing(Without(fl, i), n - 1);
      forall j | 0 <= j < |fl|
        ensures fl[j] != k
      {
        if j < i {
          assert Without(fl, i)[j] == fl[j];
        } else if j > i {
          assert Without(fl, i)[j - 1] == fl[j];
        }
      }
    } else {
      k := n - 1;
    }
  }

  // ---- framing

  /** A page's bucket depends on memory and live objects in that page only. */
  lemma BucketFrame(mem: map<nat, nat>, mem': map<nat, nat>, page: nat, d: Desc, fl: seq<nat>, live: map<nat, Object>,
          live': map<nat, Object>)
    requires Bucket(mem, page, d, fl, live)
    requires forall k :: 0 <= k < Count(d.bucket) ==>
      Word(mem', Addr(page, d.bucket, k)) == Word(mem, Addr(page, d.bucket, k))
    requires forall k :: 0 <= k < Count(d.bucket) ==>
      (Addr(page, d.bucket, k) in live' <==> Addr(page, d.bucket, k) in live)
    ensures Bucket(mem', page, d, fl, live')
  {
    forall j | 0 <= j < |fl|
      ensures Word(mem', FreeAt(page, d.bucket, fl, j)) == FreeAt(page, d.bucket, fl, j + 1)
    {
      assert fl[j] < Count(d.bucket);
    }
  }

  /** What happens in one page does not show in another. */
  lemma OtherPage(mem: map<nat, nat>, mem': map<nat, nat>, q: nat, d: Desc, fl: seq<nat>, live: map<nat, Object>,
          live': map<nat, Object>, p: nat)
    requires Bucket(mem, q, d, fl, live) && PageAddress(p) && p != q
    requires forall x :: PageOf(x) != p ==> Word(mem', x) == Word(mem, x) && (x in live' <==> x in live)
    ensures Bucket(mem', q, d, fl, live')
  {
    forall k | 0 <= k < Count(d.bucket)
      ensures PageOf(Addr(q, d.bucket, k)) == q
    {
      AddrIn(q, d.bucket, k);
    }
    BucketFrame(mem, mem', q, d, fl, live, live');
  }

  // ---- taking a free object (lib/malloc.c:268-276)

  lemma TakeBucket(mem: map<nat, nat>, p: nat, d: Desc, fl: seq<nat>, live: map<nat, Object>, live': map<nat, Object>,
          len: nat)
    requires Bucket(mem, p, d, fl, live) && fl != []
    requires live' == live[d.freeptr := Object(len, p, fl[0])]
    ensures d.freeptr !in live && d.freeptr > 0 && PageOf(d.freeptr) == p
    ensures Bucket(mem, p, d.(freeptr := Word(mem, d.freeptr), refcnt := d.refcnt + 1), fl[1..], live')
  {
    assert d.freeptr == FreeAt(p, d.bucket, fl, 0) && fl[0] in fl;
    AddrIn(p, d.bucket, fl[0]);
    var d', rest := d.(freeptr := Word(mem, d.freeptr), refcnt := d.refcnt + 1), fl[1..];
    forall j | 0 <= j < |rest|
      ensures rest[j] < Count(d.bucket) && Word(mem, FreeAt(p, d.bucket, rest, j)) == FreeAt(p, d.bucket, rest, j + 1)
    {
      assert rest[j] == fl[j + 1];
      assert FreeAt(p, d.bucket, fl, j + 1) == FreeAt(p, d.bucket, rest, j);
      assert FreeAt(p, d.bucket, fl, j + 2) == FreeAt(p, d.bucket, rest, j + 1);
    }
    assert Word(mem, FreeAt(p, d.bucket, fl, 0)) == FreeAt(p, d.bucket, fl, 1);
    assert Threaded(mem, p, d', rest);
    forall k | 0 <= k < Count(d.bucket)
      ensures Addr(p, d.bucket, k) in live' <==> k !in rest
    {
      if k == fl[0] {
        assert k !in rest;
      } else {
        AddrApart(p, d.bucket, k, fl[0]);
        assert k in fl <==> k in rest;
      }
    }
  }

  ghost function Took(h: Heap, p: nat): Heap
    requires p in h.desc
  {
    var d := h.desc[p];
    h.(desc := h.desc[p := d.(freeptr := Word(h.mem, d.freeptr), refcnt := d.refcnt + 1)])
  }

  lemma TakeKeeps(h: Heap, frees: map<nat, seq<nat>>, live: map<nat, Object>, p: nat, len: nat)
    requires Inv(h, frees, live) && p in h.desc && h.desc[p].freeptr != 0 && h.desc[p].bucket < BUCKETS
      && len <= Size(h.desc[p].bucket)
    ensures p in frees && frees[p] != [] && h.desc[p].freeptr !in live && PageOf(h.desc[p].freeptr) == p
    ensures Inv(Took(h, p), frees[p := frees[p][1..]], live[h.desc[p].freeptr := Object(len, p, frees[p][0])])
  {
    hide Bucket, Chains, LiveOK;
    assert Bucket(h.mem, p, h.desc[p], frees[p], live);
    FreeptrIn(h.mem, p, h.desc[p], frees[p], live);
    var r := h.desc[p].freeptr;
    var live' := live[r := Object(len, p, frees[p][0])];
    var h', frees' := Took(h, p), frees[p := frees[p][1..]];
    TakeBucket(h.mem, p, h.desc[p], frees[p], live, live', len);
    forall q | q in h'.desc
      ensures Bucket(h'.mem, q, h'.desc[q], frees'[q], live')
    {
      if q != p {
        OtherPage(h.mem, h.mem, q, h.desc[q], frees[q], live, live', p);
      }
    }
    forall a | a in live'
      ensures LiveOK(h'.desc, a, live'[a])
    {
      if a != r {
        LiveInPage(h, frees, live, a);
        LiveStays(h.desc, h'.desc, a, live[a]);
      } else {
        TakenOK(h.mem, p, h.desc[p], frees[p], live, h'.desc, len);
      }
    }
    SameChains(h.chain, h.desc, h'.desc);
  }

  lemma FreeptrIn(mem: map<nat, nat>, p: nat, d: Desc, fl: seq<nat>, live: map<nat, Object>)
    requires Bucket(mem, p, d, fl, live)
    ensures PageAddress(p) && (d.freeptr != 0 <==> fl != [])
  {
    if fl != [] {
      assert d.freeptr == FreeAt(p, d.bucket, fl, 0) >= p;
    }
  }

  lemma TakenOK(mem: map<nat, nat>, p: nat, d: Desc, fl: seq<nat>, live: map<nat, Object>, desc: map<nat, Desc>,
          len: nat)
    requires Bucket(mem, p, d, fl, live) && fl != [] && p in desc && desc[p].bucket == d.bucket && len <= Size(d.bucket)
    ensures LiveOK(desc, d.freeptr, Object(len, p, fl[0]))
  {
    assert d.freeptr == FreeAt(p, d.bucket, fl, 0);
  }

  lemma LiveStays(desc: map<nat, Desc>, desc': map<nat, Desc>, a: nat, o: Object)
    requires LiveOK(desc, a, o) && o.page in desc' && desc'[o.page].bucket == desc[o.page].bucket
    ensures LiveOK(desc', a, o)
  {
  }

  lemma SameChains(chain: seq<seq<nat>>, desc: map<nat, Desc>, desc': map<nat, Desc>)
    requires Chains(chain, desc) && desc'.Keys == desc.Keys && forall p :: p in desc ==>
      desc'[p].bucket == desc[p].bucket
    ensures Chains(chain, desc')
  {
    forall i | 0 <= i < BUCKETS
      ensures ChainOK(chain[i], desc', i)
    {
      assert ChainOK(chain[i], desc, i);
    }
  }
}
