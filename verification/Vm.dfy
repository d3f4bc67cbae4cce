/** Paged memory shared between tasks (mm/memory.c, mm/swap.c): page table entries, the reference
    counts mem_map and swap_map, and the contents of frames and swap slots.  A key is a task and
    one of its virtual pages. */
module Vm {

  type Key = (nat, nat)

  /** The content of a page; a page of zeros is 0. */
  type Page = int

  datatype Pte =
    | Present(frame: nat, rw: bool, cow: bool, dirty: bool, accessed: bool)
    | Swapped(slot: nat)

  /** `held` counts the references to a frame that no page table entry accounts for: pages the
      kernel has taken for itself.  `base` is what a page holds when it is loaded afresh. */
  datatype Vm = Vm(ptes: map<Key, Pte>, memMap: map<nat, nat>, held: map<nat, nat>, reserved: set<nat>, zero: nat,
                   contents: map<nat, Page>, swapMap: map<nat, nat>, swapData: map<nat, Page>, base: map<Key, Page>)

  datatype Maybe = Nothing | Just(page: Page)

  function Cnt(m: map<nat, nat>, x: nat): nat {
    if x in m then m[x] else 0
  }

  /** What a task reads at a page: the frame, the swap slot, or the page loaded afresh. */
  function View(vm: Vm, k: Key): Maybe {
    if k in vm.ptes then
      match vm.ptes[k]
      case Present(f, _, _, _, _) => if f in vm.contents then Just(vm.contents[f]) else Nothing
      case Swapped(s) => if s in vm.swapData then Just(vm.swapData[s]) else Nothing
    else if k in vm.base then Just(vm.base[k]) else Nothing
  }

  predicate Names(p: Pte, f: nat) {
    p.Present? && p.frame == f
  }

  predicate Holds(p: Pte, s: nat) {
    p.Swapped? && p.slot == s
  }

  ghost function Refs(ptes: map<Key, Pte>, f: nat): set<Key> {
    set k | k in ptes && Names(ptes[k], f)
  }

  ghost function SlotRefs(ptes: map<Key, Pte>, s: nat): set<Key> {
    set k | k in ptes && Holds(ptes[k], s)
  }

  // ---- the invariant ----

  /** mem_map counts the entries that name a frame, and the kernel's own references. */
  ghost predicate CountOK(vm: Vm, f: nat) {
    f !in vm.reserved ==> Cnt(vm.memMap, f) == |Refs(vm.ptes, f)| + Cnt(vm.held, f)
  }

  /** swap_map counts the entries that hold a slot. */
  ghost predicate SlotOK(vm: Vm, s: nat) {
    Cnt(vm.swapMap, s) == |SlotRefs(vm.ptes, s)|
  }

  /** One entry: a private writable page has no other reference, reserved pages are read-only, a
      clean private page can be dropped because it can be loaded again, and data is there. */
  ghost predicate EntryOK(vm: Vm, k: Key)
    requires k in vm.ptes
  {
    match vm.ptes[k]
    case Present(f, rw, cow, dirty, _) =>
      && f in vm.contents
      && (f in vm.reserved ==> !rw)
      && (rw && cow ==> Cnt(vm.memMap, f) == 1)
      && (cow && !dirty ==> k in vm.base && vm.base[k] == vm.contents[f])
    case Swapped(s) => s in vm.swapData
  }

  /** Entries that share a frame or a slot are for the same virtual page, and agree on privacy. */
  ghost predicate PairOK(vm: Vm, k: Key, k': Key)
    requires k in vm.ptes && k' in vm.ptes
  {
    var p, p' := vm.ptes[k], vm.ptes[k'];
    && (p.Present? && p'.Present? && p.frame == p'.frame && p.frame !in vm.reserved ==> k.1 == k'.1 && p.cow == p'.cow)
    && (p.Swapped? && p'.Swapped? && p.slot == p'.slot ==> k.1 == k'.1)
  }

  ghost predicate Inv(vm: Vm) {
    && (forall f {:trigger CountOK(vm, f)} :: CountOK(vm, f))
    && (forall s {:trigger SlotOK(vm, s)} :: SlotOK(vm, s))
    && (forall k {:trigger EntryOK(vm, k)} :: k in vm.ptes ==> EntryOK(vm, k))
    && (forall k, k' {:trigger PairOK(vm, k, k')} :: k in vm.ptes && k' in vm.ptes ==> PairOK(vm, k, k'))
    && vm.zero in vm.reserved && vm.zero in vm.contents && vm.contents[vm.zero] == 0
  }

  // ---- counting references when one entry changes ----

  lemma RefsWithout(ptes: map<Key, Pte>, k: Key, f: nat)
    ensures |Refs(ptes, f)| == |Refs(ptes - {k}, f)| + if k in ptes && Names(ptes[k], f) then 1 else 0
  {
    if k in ptes && Names(ptes[k], f) {
      assert Refs(ptes, f) == Refs(ptes - {k}, f) + {k};
    } else {
      assert Refs(ptes, f) == Refs(ptes - {k}, f);
    }
  }

  lemma SlotRefsWithout(ptes: map<Key, Pte>, k: Key, s: nat)
    ensures |SlotRefs(ptes, s)| == |SlotRefs(ptes - {k}, s)| + if k in ptes && Holds(ptes[k], s) then 1 else 0
  {
    if k in ptes && Holds(ptes[k], s) {
      assert SlotRefs(ptes, s) == SlotRefs(ptes - {k}, s) + {k};
    } else {
      assert SlotRefs(ptes, s) == SlotRefs(ptes - {k}, s);
    }
  }

  /** Setting one entry gives up what it named and takes what it names now. */
  lemma RefsSet(ptes: map<Key, Pte>, k: Key, p: Pte, f: nat)
    ensures |Refs(ptes[k := p], f)| + (if k in ptes && Names(ptes[k], f) then 1 else 0)
         == |Refs(ptes, f)| + (if Names(p, f) then 1 else 0)
    ensures |SlotRefs(ptes[k := p], f)| + (if k in ptes && Holds(ptes[k], f) then 1 else 0)
         == |SlotRefs(ptes, f)| + (if Holds(p, f) then 1 else 0)
  {
    RefsWithout(ptes, k, f);
    RefsWithout(ptes[k := p], k, f);
    SlotRefsWithout(ptes, k, f);
    SlotRefsWithout(ptes[k := p], k, f);
    assert ptes[k := p] - {k} == ptes - {k};
  }

  lemma RefsClear(ptes: map<Key, Pte>, k: Key, f: nat)
    ensures |Refs(ptes - {k}, f)| + (if k in ptes && Names(ptes[k], f) then 1 else 0) == |Refs(ptes, f)|
    ensures |SlotRefs(ptes - {k}, f)| + (if k in ptes && Holds(ptes[k], f) then 1 else 0) == |SlotRefs(ptes, f)|
  {
    RefsWithout(ptes, k, f);
    SlotRefsWithout(ptes, k, f);
  }

  /** A frame with count one has no second entry naming it. */
  lemma OnlyRef(vm: Vm, k: Key, k': Key)
    requires Inv(vm) && k in vm.ptes && k' in vm.ptes && vm.ptes[k].Present? && vm.ptes[k'].Present?
    requires vm.ptes[k].frame == vm.ptes[k'].frame && vm.ptes[k].frame !in vm.reserved
      && Cnt(vm.memMap, vm.ptes[k].frame) == 1
    ensures k == k'
  {
    var f := vm.ptes[k].frame;
    assert CountOK(vm, f);
    if k != k' {
      assert {k, k'} <= Refs(vm.ptes, f);
      SubsetSize({k, k'}, Refs(vm.ptes, f));
    }
  }

  lemma SubsetSize(a: set<Key>, b: set<Key>)
    requires a <= b
    ensures |a| <= |b|
  {
    assert b == a + (b - a);
    assert |b| == |a| + |b - a|;
  }

  /** No entry names a frame whose count is zero. */
  lemma Unreferenced(vm: Vm, k: Key, f: nat)
    requires Inv(vm) && k in vm.ptes && Names(vm.ptes[k], f) && f !in vm.reserved
    ensures Cnt(vm.memMap, f) >= 1
  {
    assert CountOK(vm, f);
    SubsetSize({k}, Refs(vm.ptes, f));
  }

  lemma SlotReferenced(vm: Vm, k: Key, s: nat)
    requires Inv(vm) && k in vm.ptes && Holds(vm.ptes[k], s)
    ensures Cnt(vm.swapMap, s) >= 1
  {
    assert SlotOK(vm, s);
    SubsetSize({k}, SlotRefs(vm.ptes, s));
  }

  /** Sharing never crosses virtual pages, so a count never exceeds the number of tasks (plus the
      kernel's own references): the byte in swap_map and the short in mem_map cannot wrap. */
  lemma CountsBounded(vm: Vm, tasks: set<nat>)
    requires Inv(vm) && forall k :: k in vm.ptes ==> k.0 in tasks
    ensures forall s :: Cnt(vm.swapMap, s) <= |tasks|
    ensures forall f :: f !in vm.reserved ==> Cnt(vm.memMap, f) <= |tasks| + Cnt(vm.held, f)
  {
    forall s
      ensures Cnt(vm.swapMap, s) <= |tasks|
    {
      assert SlotOK(vm, s);
      var keys := SlotRefs(vm.ptes, s);
      forall k, k' | k in keys && k' in keys ensures k.1 == k'.1 { assert PairOK(vm, k, k'); }
      OneEach(keys, tasks);
    }
    forall f | f !in vm.reserved
      ensures Cnt(vm.memMap, f) <= |tasks| + Cnt(vm.held, f)
    {
      assert CountOK(vm, f);
      var keys := Refs(vm.ptes, f);
      forall k, k' | k in keys && k' in keys ensures k.1 == k'.1 { assert PairOK(vm, k, k'); }
      OneEach(keys, tasks);
    }
  }

  lemma {:induction false} OneEach(keys: set<Key>, tasks: set<nat>)
    requires forall k :: k in keys ==> k.0 in tasks
    requires forall k, k' :: k in keys && k' in keys ==> k.1 == k'.1
    ensures |keys| <= |tasks|
    decreases keys
  {
    if keys == {} {
    } else {
      var k :| k in keys;
      OneEach(keys - {k}, tasks - {k.0});
    }
  }
}
