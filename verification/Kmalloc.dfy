/** kmalloc and kfree_s (lib/malloc.c:143-328, 381-502), as the steps between which a caller may sleep: every step
    keeps the invariant, so every interleaving of calls does. */
module Kmalloc {
  import opened KmallocHeap
  import opened KmallocSteps

  const DESCRIPTORS := 256

  /** What a call to kmalloc comes to before it has to ask for a page. */
  datatype Outcome = Done(addr: nat) | NeedsDescriptors(bucket: nat) | NeedsPage(bucket: nat)

  ghost predicate NoneIn(live: map<nat, Object>, page: nat) {
    forall a :: a in live ==> PageOf(a) != page
  }

  /** Every descriptor is on the free list, held by a sleeping caller or in use; its page is no object page. */
  ghost predicate Counted(free: nat, held: nat, desc: map<nat, Desc>, pages: set<nat>) {
    desc.Keys !! pages && free + held + |desc| == DESCRIPTORS * |pages|
  }

  /** The smallest bucket that is large enough. */
  predicate Fits(i: nat, len: nat) {
    i < BUCKETS && len <= Size(i) && (i > 0 ==> Size(i - 1) < len)
  }

  /** That bucket has a page with a free object. */
  ghost predicate Stocked(h: Heap, len: nat) {
    exists p :: p in h.desc && h.desc[p].freeptr != 0 && Fits(h.desc[p].bucket, len)
  }

  lemma HasStock(h: Heap, p: nat, len: nat)
    requires p in h.desc && h.desc[p].freeptr != 0 && Fits(h.desc[p].bucket, len)
    ensures Stocked(h, len)
  {
  }

  lemma NotStocked(h: Heap, frees: map<nat, seq<nat>>, live: map<nat, Object>, i: nat, len: nat)
    requires Inv(h, frees, live) && Fits(i, len) && i < |h.chain|
    requires forall m :: 0 <= m < |h.chain[i]| ==> h.chain[i][m] in h.desc && h.desc[h.chain[i][m]].freeptr == 0
    ensures !Stocked(h, len)
  {
    hide Inv;
    ChainsOf(h, frees, live);
  }

  class Allocator {
    var h: Heap
    /** Descriptors on the free list. */
    var freeDescs: nat
    ghost var frees: map<nat, seq<nat>>
    ghost var live: map<nat, Object>
    /** Pages of descriptors, and descriptors held by callers asleep in __get_free_page. */
    ghost var descPages: set<nat>
    ghost var held: nat

    ghost predicate Valid()
      reads this
    {
      && Inv(h, frees, live) && NoneIdle(h.desc, {})
      && Counted(freeDescs, held, h.desc, descPages)
    }

    /** A page __get_free_page may return: one the allocator does not have. */
    ghost predicate Fresh(page: nat)
      reads this
    {
      PageAddress(page) && page !in h.desc && page !in descPages
    }

    constructor ()
      ensures Valid() && live == map[] && descPages == {} && held == 0
    {
      h := Heap(seq(BUCKETS, _ => []), map[], map[]);
      freeDescs, frees, live, descPages, held := 0, map[], map[], {}, 0;
    }

    /** The whole of kmalloc when nobody else runs in between; descPage and page are what __get_free_page would
        return, NULL if there is no memory. */
    method Kmalloc(len: nat, descPage: nat, page: nat) returns (r: nat)
      requires Valid() && (descPage != 0 ==> Fresh(descPage)) && (page != 0 ==> Fresh(page) && page != descPage)
      modifies this
      ensures Valid() && held == old(held) && Intact(old(h.mem), h.mem, old(live))
      ensures r == 0 <==>
        || len > PAGE_SIZE
        || (!Stocked(old(h), len) && (page == 0 || (old(freeDescs) == 0 && descPage == 0)))
      ensures r == 0 ==> live == old(live) && h == old(h)
      ensures r != 0 ==> r !in old(live) && live.Keys == old(live.Keys) + {r} && live[r].len == len
      ensures r != 0 ==> forall a :: a in old(live) ==> live[a] == old(live)[a]
    {
      hide Inv, Intact, Stocked;
      SameIntact(h.mem, live);
      var outcome := Start(len);
      if outcome.NeedsDescriptors? {
        var ok := GotDescriptors(outcome.bucket, descPage);
        if !ok {
          return 0;
        }
        outcome := NeedsPage(outcome.bucket);
      }
      if outcome.NeedsPage? {
        r := GotPage(outcome.bucket, len, page);
      } else {
        r := outcome.addr;
      }
    }

    /** Up to the first place where kmalloc may sleep (lib/malloc.c:189-221). */
    method Start(len: nat) returns (out: Outcome)
      requires Valid()
      modifies this
      ensures Valid() && h.mem == old(h.mem) && h.desc.Keys == old(h.desc.Keys) && descPages == old(descPages)
      ensures out == Done(0) <==> len > PAGE_SIZE
      ensures out.Done? && out.addr != 0 ==> Stocked(old(h), len)
      ensures !out.Done? ==> !Stocked(old(h), len) && (out.NeedsDescriptors? <==> old(freeDescs) == 0)
      ensures out.Done? && out.addr != 0 ==>
        out.addr !in old(live) && live.Keys == old(live.Keys) + {out.addr} && live[out.addr].len == len
      ensures out.Done? && out.addr != 0 ==> held == old(held) && forall a :: a in old(live) ==> live[a] == old(live)[a]
      ensures !out.Done? ==> out.bucket < BUCKETS && len <= Size(out.bucket)
      ensures !out.Done? || out.addr == 0 ==> live == old(live) && h == old(h)
      ensures held == old(held) + if out.NeedsPage? then 1 else 0
    {
      hide Inv, NoneIdle, Count, Stocked;
      var i := FindSize(len);
      if i == BUCKETS {
        return Done(0);
      }
      ChainsOf(h, frees, live);
      var j := FindBucket(i);
      if j < |h.chain[i]| {
        ghost var was := h.desc;
        HasStock(h, h.chain[i][j], len);
        var r := Take(h.chain[i][j], len, {});
        SameKeys(freeDescs, held, was, h.desc, descPages);
        return Done(r);
      }
      NotStocked(h, frees, live, i, len);
      if freeDescs == 0 {
        return NeedsDescriptors(i);
      }
      freeDescs, held := freeDescs - 1, held + 1;
      return NeedsPage(i);
    }

    /** The smallest bucket that is large enough (lib/malloc.c:190-193). */
    method FindSize(len: nat) returns (i: nat)
      ensures i <= BUCKETS && (i == BUCKETS <==> len > PAGE_SIZE)
      ensures i < BUCKETS ==> len <= Size(i)
      ensures forall j :: 0 <= j < i ==> Size(j) < len
    {
      i := 0;
      while i < BUCKETS && Size(i) < len
        invariant i <= BUCKETS && forall j :: 0 <= j < i ==> Size(j) < len
      {
        i := i + 1;
      }
      assert i == BUCKETS ==> Size(8) < len;
    }

    /** The first page of the chain with a free object (lib/malloc.c:200-202). */
    method FindBucket(i: nat) returns (j: nat)
      requires Valid() && i < |h.chain| == BUCKETS && ChainOK(h.chain[i], h.desc, i)
      ensures j <= |h.chain[i]|
      ensures forall m :: 0 <= m < j ==> h.chain[i][m] in h.desc && h.desc[h.chain[i][m]].freeptr == 0
      ensures j < |h.chain[i]| ==>
        h.chain[i][j] in h.desc && h.desc[h.chain[i][j]].bucket == i && h.desc[h.chain[i][j]].freeptr != 0
    {
      hide Inv;
      assert ChainOK(h.chain[i], h.desc, i);
      j := 0;
      while j < |h.chain[i]| && h.desc[h.chain[i][j]].freeptr == 0
        invariant j <= |h.chain[i]|
        invariant forall m :: 0 <= m < j ==> h.chain[i][m] in h.desc && h.desc[h.chain[i][m]].freeptr == 0
      {
        j := j + 1;
      }
    }

    /** Takes the first free object of a page (lib/malloc.c:268-276). `made` is the page just set up, if any. */
    method Take(p: nat, len: nat, ghost made: set<nat>) returns (r: nat)
      requires Inv(h, frees, live) && NoneIdle(h.desc, made) && made <= {p}
      requires p in h.desc && h.desc[p].freeptr != 0 && h.desc[p].bucket < BUCKETS && len <= Size(h.desc[p].bucket)
      modifies this`h, this`frees, this`live
      ensures Inv(h, frees, live) && NoneIdle(h.desc, {})
      ensures h.mem == old(h.mem) && h.desc.Keys == old(h.desc.Keys)
      ensures r != 0 && PageOf(r) == p && r !in old(live) && live.Keys == old(live.Keys) + {r} && live[r].len == len
      ensures forall a :: a in old(live) ==> live[a] == old(live)[a]
    {
      hide Inv;
      TakeKeeps(h, frees, live, p, len);
      var d := h.desc[p];
      r := d.freeptr;
      h := h.(desc := h.desc[p := d.(freeptr := Word(h.mem, r), refcnt := d.refcnt + 1)]);
      live := live[r := Object(len, p, frees[p][0])];
      frees := frees[p := frees[p][1..]];
    }

    /** Back from asking for a page of descriptors (lib/malloc.c:215-221): init_bucket_desc links all of them. */
    method GotDescriptors(i: nat, page: nat) returns (ok: bool)
      requires Valid() && (page != 0 ==> Fresh(page))
      modifies this`freeDescs, this`descPages, this`held
      ensures Valid() && ok == (page != 0)
      ensures descPages == old(descPages) + if ok then {page} else {}
      ensures held == old(held) + if ok then 1 else 0
    {
      if page == 0 {
        return false;
      }
      freeDescs := freeDescs + DESCRIPTORS;
      descPages := descPages + {page};
      freeDescs, held := freeDescs - 1, held + 1;
      return true;
    }

    /** Back from asking for the page itself (lib/malloc.c:224-276). */
    method GotPage(i: nat, len: nat, page: nat) returns (r: nat)
      requires Valid() && i < BUCKETS && len <= Size(i) && held > 0 && (page != 0 ==> Fresh(page))
      modifies this
      ensures Valid() && held == old(held) - 1 && descPages == old(descPages)
      ensures r == 0 <==> page == 0
      ensures r == 0 ==> live == old(live) && h == old(h)
      ensures r != 0 ==> r !in old(live) && live.Keys == old(live.Keys) + {r} && live[r].len == len
      ensures r != 0 ==> PageOf(r) == page && h.desc.Keys == old(h.desc.Keys) + {page}
      ensures forall a :: a in old(live) ==> a in live && live[a] == old(live)[a]
      ensures Intact(old(h.mem), h.mem, old(live))
    {
      hide Inv, SetUp, Intact, Count, Size;
      SameIntact(h.mem, live);
      ChainsOf(h, frees, live);
      if page == 0 {
        freeDescs, held := freeDescs + 1, held - 1;
        return 0;
      }
      Open(i, page);
      ghost var was := h.desc;
      r := Take(page, len, {page});
      held := held - 1;
      SameKeys(freeDescs, held, was, h.desc, descPages);
    }

    /** Sets the page up and links its descriptor in (lib/malloc.c:235-266). */
    method Open(i: nat, page: nat)
      requires Valid() && i < BUCKETS == |h.chain| && held > 0 && Fresh(page)
      modifies this`h, this`frees
      ensures Inv(h, frees, live) && NoneIdle(h.desc, {page}) && Intact(old(h.mem), h.mem, live)
      ensures h.desc.Keys == old(h.desc.Keys) + {page} && h.desc[page].bucket == i && h.desc[page].freeptr == page > 0
      ensures Counted(freeDescs, held - 1, h.desc, descPages)
    {
      hide Inv, SetUp, Intact, Counted, ChainOK, Count, Size, NoneIdle;
      var mem := ThreadPage(h.mem, page, i);
      OpenKeeps(h, mem, frees, live, page, i);
      SetUpElsewhere(h, mem, frees, live, page, i);
      ghost var was := h.desc;
      OpenIdle(was, page, i);
      var h' := Heap(h.chain[i := [page] + h.chain[i]], h.desc[page := Desc(i, page, 0)], mem);
      assert h' == Opened(h, mem, page, i);
      hide Opened;
      h, frees := h', frees[page := Upto(Count(i))];
      Grown(freeDescs, held, was, h.desc, descPages, page);
    }

    /** kfree_s (lib/malloc.c:381-502) of a live object, or of an address in none of the pages; `released` is the
        page freed, 0 if none. */
    method Kfree(obj: nat, size: nat) returns (released: nat)
      requires Valid() && (obj == 0 || PageOf(obj) !in h.desc || (obj in live && size <= live[obj].len))
      modifies this
      ensures Valid() && held == old(held) && descPages == old(descPages)
      ensures live == old(live) - {obj} && Intact(old(h.mem), h.mem, live)
      ensures obj !in old(live) ==> h == old(h) && released == 0
      ensures released == 0 || released == PageOf(obj)
      ensures obj in old(live) ==> (released != 0 <==> NoneIn(live, PageOf(obj)))
      ensures h.desc.Keys == old(h.desc.Keys) - {released}
    {
      hide Inv, Intact, Counted, NoneIn, ChainOK;
      SameIntact(h.mem, live);
      ChainsOf(h, frees, live);
      if obj == 0 {
        NoneAt(h, frees, live, 0);
        assert h.desc.Keys - {0} == h.desc.Keys;
        return 0;
      }
      var page := obj - obj % PAGE_SIZE;
      var i, j := FindPage(page, size, obj);
      if i == BUCKETS {
        NoneAt(h, frees, live, obj);
        assert h.desc.Keys - {0} == h.desc.Keys;
        return 0;
      }
      NoneAt(h, frees, live, obj);
      ghost var was := h.desc;
      GiveBack(obj, page, i, j);
      SameKeys(freeDescs, held, was, h.desc, descPages);
      released := 0;
      assert h.desc.Keys - {0} == h.desc.Keys;
      if h.desc[page].refcnt == 0 {
        GiveUp(page, i, j);
        released := page;
      }
    }

    /** Puts the object on its page's free list (lib/malloc.c:474-478). */
    method GiveBack(obj: nat, page: nat, i: nat, j: nat)
      requires Valid() && obj in live && page == PageOf(obj) && page in h.desc
      requires i < BUCKETS == |h.chain| && j < |h.chain[i]| && h.chain[i][j] == page
      modifies this`h, this`frees, this`live
      ensures Inv(h, frees, live) && NoneIdle(h.desc, {page}) && live == old(live) - {obj}
        && Intact(old(h.mem), h.mem, live)
      ensures h.chain == old(h.chain) && h.desc.Keys == old(h.desc.Keys) && h.desc[page].bucket == i && page > 0
      ensures h.desc[page].refcnt == 0 <==> NoneIn(live, page)
    {
      hide Inv, Intact;
      ChainsOf(h, frees, live);
      assert ChainOK(h.chain[i], h.desc, i);
      LiveInPage(h, frees, live, obj);
      GiveBackKeeps(h, frees, live, obj);
      GiveBackUntouched(h, frees, live, obj, h.desc[page].freeptr);
      ghost var slot := live[obj].slot;
      var d := h.desc[page];
      h := h.(desc := h.desc[page := d.(freeptr := obj, refcnt := d.refcnt - 1)], mem := h.mem[obj := d.freeptr]);
      frees := frees[page := [slot] + frees[page]];
      live := live - {obj};
      IdleIffNoneLive(h, frees, live, page);
    }

    /** Unlinks the page's descriptor and frees both (lib/malloc.c:479-498). */
    method GiveUp(page: nat, i: nat, j: nat)
      requires Inv(h, frees, live) && NoneIdle(h.desc, {page}) && page in h.desc && h.desc[page].refcnt == 0
      requires Counted(freeDescs, held, h.desc, descPages)
      requires i < |h.chain| && h.desc[page].bucket == i && j < |h.chain[i]| && h.chain[i][j] == page
      modifies this`h, this`frees, this`freeDescs
      ensures Valid() && h.desc.Keys == old(h.desc.Keys) - {page} && h.mem == old(h.mem)
    {
      hide Inv, Counted;
      ReleaseKeeps(h, frees, live, page, j);
      Shrunk(freeDescs, held, h.desc, descPages, page);
      h := h.(chain := h.chain[i := Without(h.chain[i], j)], desc := h.desc - {page});
      frees := frees - {page};
      freeDescs := freeDescs + 1;
    }

    /** The search for the page's descriptor (lib/malloc.c:425-442), which skips the buckets too small for the
        size given. */
    method FindPage(page: nat, size: nat, ghost obj: nat) returns (i: nat, j: nat)
      requires Valid() && |h.chain| == BUCKETS && page == PageOf(obj)
      requires page !in h.desc || (obj in live && size <= live[obj].len)
      ensures i <= BUCKETS && (i == BUCKETS <==> page !in h.desc)
      ensures i < BUCKETS ==> j < |h.chain[i]| && h.chain[i][j] == page
    {
      hide Inv, Size;
      i, j := 0, 0;
      while i < BUCKETS
        invariant i <= BUCKETS
        invariant forall m :: 0 <= m < i && Size(m) >= size ==> page !in h.chain[m]
      {
        if Size(i) >= size {
          j := IndexOf(h.chain[i], page);
          if j < |h.chain[i]| {
            ChainsOf(h, frees, live);
            return;
          }
        }
        i := i + 1;
      }
      InItsChain(h, frees, live, obj, size);
    }

    /** A caller writes into an object of its own. */
    method Write(obj: nat, x: nat, v: nat)
      requires Valid() && obj in live && obj <= x < obj + live[obj].len
      modifies this`h
      ensures Valid() && h == old(h).(mem := old(h.mem)[x := v])
    {
      hide Inv;
      WriteKeeps(h, frees, live, obj, x, v);
      h := h.(mem := h.mem[x := v]);
    }
  }

  method IndexOf(pages: seq<nat>, page: nat) returns (j: nat)
    ensures j <= |pages| && (j < |pages| ==> pages[j] == page) && page !in pages[..j]
  {
    j := 0;
    while j < |pages|
      invariant j <= |pages| && page !in pages[..j]
    {
      if pages[j] == page {
        return;
      }
      assert pages[..j + 1] == pages[..j] + [pages[j]];
      j := j + 1;
    }
  }

  /** The chain searched for a live object's page is one of those large enough for it. */
  lemma InItsChain(h: Heap, frees: map<nat, seq<nat>>, live: map<nat, Object>, obj: nat, size: nat)
    requires Inv(h, frees, live)
    ensures |h.chain| == BUCKETS
    ensures PageOf(obj) in h.desc && obj in live && size <= live[obj].len ==>
      exists m :: 0 <= m < BUCKETS && Size(m) >= size && PageOf(obj) in h.chain[m]
  {
    if PageOf(obj) in h.desc && obj in live && size <= live[obj].len {
      LiveInPage(h, frees, live, obj);
      assert LiveOK(h.desc, obj, live[obj]);
      var m := h.desc[PageOf(obj)].bucket;
      assert Size(m) >= size && PageOf(obj) in h.chain[m];
    }
  }

  lemma SameIntact(mem: map<nat, nat>, live: map<nat, Object>)
    ensures Intact(mem, mem, live)
  {
  }

  /** The loop that threads the free list through a new page (lib/malloc.c:240-259). */
  method ThreadPage(mem: map<nat, nat>, page: nat, i: nat) returns (mem': map<nat, nat>)
    requires i < BUCKETS && PageAddress(page)
    ensures SetUp(mem, mem', page, i)
  {
    hide Addr, Size, Count, PageOf;
    SizeCount(i);
    mem' := mem;
    var n, k, at := Count(i), 0, page;
    AtStart(page, i);
    while k < n
      invariant k <= n && at == Addr(page, i, k)
      invariant forall m :: 0 <= m < k ==> Word(mem', Addr(page, i, m)) == if m + 1 < n then Addr(page, i, m + 1) else 0
      invariant forall x :: PageOf(x) != page ==> Word(mem', x) == Word(mem, x)
    {
      AtNext(page, i, k);
      AddrIn(page, i, k);
      forall m | 0 <= m < k
        ensures Addr(page, i, m) != at
      {
        AddrApart(page, i, m, k);
      }
      mem' := mem'[at := if k + 1 == n then 0 else at + Size(i)];
      at := at + Size(i);
      k := k + 1;
    }
  }

  lemma AtStart(page: nat, i: nat)
    requires i < BUCKETS
    ensures Addr(page, i, 0) == page
  {
  }

  lemma AtNext(page: nat, i: nat, k: nat)
    requires i < BUCKETS
    ensures Addr(page, i, k + 1) == Addr(page, i, k) + Size(i)
  {
  }

  lemma OpenIdle(desc: map<nat, Desc>, p: nat, i: nat)
    requires NoneIdle(desc, {})
    ensures NoneIdle(desc[p := Desc(i, p, 0)], {p}) && desc[p := Desc(i, p, 0)].Keys == desc.Keys + {p}
  {
  }

  lemma Grown(free: nat, held: nat, desc: map<nat, Desc>, desc': map<nat, Desc>, pages: set<nat>, p: nat)
    requires Counted(free, held, desc, pages) && p !in desc && p !in pages && desc'.Keys == desc.Keys + {p} && held > 0
    ensures Counted(free, held - 1, desc', pages)
  {
    assert |desc'.Keys| == |desc'| && |desc.Keys| == |desc|;
  }

  lemma Shrunk(free: nat, held: nat, desc: map<nat, Desc>, pages: set<nat>, p: nat)
    requires Counted(free, held, desc, pages) && p in desc
    ensures (desc - {p}).Keys == desc.Keys - {p} && Counted(free + 1, held, desc - {p}, pages)
  {
    assert (desc - {p}).Keys == desc.Keys - {p};
    assert |desc.Keys| == |desc| && |(desc - {p}).Keys| == |desc - {p}|;
  }

  lemma SameKeys(free: nat, held: nat, desc: map<nat, Desc>, desc': map<nat, Desc>, pages: set<nat>)
    requires Counted(free, held, desc, pages) && desc'.Keys == desc.Keys
    ensures Counted(free, held, desc', pages)
  {
    assert |desc'.Keys| == |desc'| && |desc.Keys| == |desc|;
  }

  /** The page set up has no live object in it. */
  lemma SetUpElsewhere(h: Heap, mem: map<nat, nat>, frees: map<nat, seq<nat>>, live: map<nat, Object>, p: nat, i: nat)
    requires Inv(h, frees, live) && p !in h.desc && i < BUCKETS && SetUp(h.mem, mem, p, i) && PageAddress(p)
    ensures Intact(h.mem, mem, live)
  {
    hide Inv;
    forall a, x | a in live && Inside(live[a], a, x)
      ensures Word(mem, x) == Word(h.mem, x)
    {
      LiveInPage(h, frees, live, a);
      InPage(x, PageOf(a));
    }
  }

  lemma InPage(x: nat, p: nat)
    requires PageAddress(p) && p <= x < p + PAGE_SIZE
    ensures PageOf(x) == p
  {
  }

  lemma GiveBackUntouched(h: Heap, frees: map<nat, seq<nat>>, live: map<nat, Object>, obj: nat, v: nat)
    requires Inv(h, frees, live) && obj in live
    ensures Intact(h.mem, h.mem[obj := v], live - {obj})
  {
    hide Inv;
    var live' := live - {obj};
    forall a, x | a in live' && Inside(live'[a], a, x)
      ensures Word(h.mem[obj := v], x) == Word(h.mem, x)
    {
      ObjectApart(h, frees, live, a, obj);
    }
  }

  /** Not even an empty object starts inside another. */
  lemma ObjectApart(h: Heap, frees: map<nat, seq<nat>>, live: map<nat, Object>, a: nat, b: nat)
    requires Inv(h, frees, live) && a in live && b in live && a != b
    ensures !(a <= b < a + live[a].len)
  {
    var x, y := live[a], live[b];
    assert LiveOK(h.desc, a, x) && LiveOK(h.desc, b, y);
    AddrIn(x.page, h.desc[x.page].bucket, x.slot);
    AddrIn(y.page, h.desc[y.page].bucket, y.slot);
    if x.page == y.page {
      AddrApart(x.page, h.desc[x.page].bucket, x.slot, y.slot);
    } else {
      PagesApart(x.page, y.page);
    }
  }

  lemma NoneAt(h: Heap, frees: map<nat, seq<nat>>, live: map<nat, Object>, a: nat)
    requires Inv(h, frees, live)
    ensures a == 0 || PageOf(a) !in h.desc ==> a !in live && live - {a} == live
    ensures a in live ==> PageOf(a) in h.desc && PageAddress(PageOf(a))
  {
    if a in live {
      LiveInPage(h, frees, live, a);
    }
  }

  lemma WriteKeeps(h: Heap, frees: map<nat, seq<nat>>, live: map<nat, Object>, obj: nat, x: nat, v: nat)
    requires Inv(h, frees, live) && obj in live && obj <= x < obj + live[obj].len
    ensures Inv(h.(mem := h.mem[x := v]), frees, live)
  {
    hide Chains, Bucket, LiveOK;
    var mem' := h.mem[x := v];
    forall p | p in h.desc
      ensures Bucket(mem', p, h.desc[p], frees[p], live)
    {
      WriteBucket(h, frees, live, obj, x, v, p);
    }
  }

  /** No free object's link is inside a live object. */
  lemma WriteBucket(h: Heap, frees: map<nat, seq<nat>>, live: map<nat, Object>, obj: nat, x: nat, v: nat, p: nat)
    requires Inv(h, frees, live) && obj in live && obj <= x < obj + live[obj].len && p in h.desc
    ensures Bucket(h.mem[x := v], p, h.desc[p], frees[p], live)
  {
    var d, fl, o := h.desc[p], frees[p], live[obj];
    assert Bucket(h.mem, p, d, fl, live) && LiveOK(h.desc, obj, o);
    LiveInPage(h, frees, live, obj);
    forall j | 0 <= j < |fl|
      ensures fl[j] < Count(d.bucket)
        && Word(h.mem[x := v], FreeAt(p, d.bucket, fl, j)) == FreeAt(p, d.bucket, fl, j + 1)
    {
      var at := FreeAt(p, d.bucket, fl, j);
      assert fl[j] in fl;
      AddrIn(p, d.bucket, fl[j]);
      if p == o.page {
        AddrApart(p, d.bucket, fl[j], o.slot);
      } else {
        PagesApart(p, o.page);
      }
      assert at != x;
    }
    assert Threaded(h.mem[x := v], p, d, fl);
  }
}
