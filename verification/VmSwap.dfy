/** Swapping, sharing and mapping fresh pages (mm/swap.c:193-261, mm/memory.c:301-311, 361-371,
    672-682, 698-747), one entry at a time. */
module VmSwap {
  import opened Vm
  import opened VmOps
  import opened VmCow

  /** try_to_swap_out (mm/swap.c:224-261).  `recent` says that the page is among the last ones taken,
      and slot is what get_swap_page found.  The number is what the function returns. */
  function SwapOut(vm: Vm, k: Key, recent: bool, slot: Slotted): (Vm, nat) {
    if k !in vm.ptes || !vm.ptes[k].Present? || vm.ptes[k].frame in vm.reserved then (vm, 0)
    else
      var p := vm.ptes[k];
      if p.accessed then (vm.(ptes := vm.ptes[k := p.(accessed := false)]), 0)
      else if recent then (vm, 0)
      else if p.dirty then
        if Cnt(vm.memMap, p.frame) != 1 || slot.NoSlot? || p.frame !in vm.contents then (vm, 0)
        else
          (FreePage(vm.(ptes := vm.ptes[k := Swapped(slot.s)], swapMap := vm.swapMap[slot.s := 1],
                        swapData := vm.swapData[slot.s := vm.contents[p.frame]]), p.frame), 1)
      else
        var vm' := FreePage(vm.(ptes := vm.ptes - {k}), p.frame);
        (vm', 1 + Cnt(vm'.memMap, p.frame))
  }

  datatype Slotted = NoSlot | Found(s: nat)

  lemma AgeOK(vm: Vm, k: Key)
    requires Inv(vm) && k in vm.ptes && vm.ptes[k].Present?
    ensures var vm' := vm.(ptes := vm.ptes[k := vm.ptes[k].(accessed := false)]);
            Inv(vm') && forall j :: View(vm', j) == View(vm, j)
  {
    hide CountOK, SlotOK;
    var e := Entry(vm.ptes[k].(accessed := false));
    var vm' := vm.(ptes := vm.ptes[k := e.pte]);
    CountsFollow(vm, vm', k, e);
    forall j | j in vm.ptes && j != k ensures PairOK(vm', k, j) { assert PairOK(vm, k, j); }
    PairsFollow(vm, vm', k, e);
    forall j | j in vm'.ptes ensures EntryOK(vm', j) { assert EntryOK(vm, j); }
  }

  lemma FreeSlotUnheld(vm: Vm, s: nat, k: Key)
    requires Inv(vm) && Cnt(vm.swapMap, s) == 0 && k in vm.ptes
    ensures !Holds(vm.ptes[k], s)
  {
    if Holds(vm.ptes[k], s) { SlotReferenced(vm, k, s); }
  }

  /** Writing a dirty page out: the slot takes over the frame's content and only reference. */
  lemma WriteOutOK(vm: Vm, k: Key, s: nat)
    requires Inv(vm) && k in vm.ptes && vm.ptes[k].Present? && vm.ptes[k].frame !in vm.reserved
    requires Cnt(vm.memMap, vm.ptes[k].frame) == 1 && Cnt(vm.swapMap, s) == 0 && vm.ptes[k].frame in vm.contents
    ensures var f := vm.ptes[k].frame;
            var vm' := FreePage(vm.(ptes := vm.ptes[k := Swapped(s)], swapMap := vm.swapMap[s := 1],
            swapData := vm.swapData[s := vm.contents[f]]), f);
            Inv(vm') && forall j :: View(vm', j) == View(vm, j)
  {
    hide CountOK, SlotOK, PairOK;
    var f := vm.ptes[k].frame;
    var e := Entry(Swapped(s));
    var vm' := FreePage(vm.(ptes := vm.ptes[k := Swapped(s)], swapMap := vm.swapMap[s := 1],
      swapData := vm.swapData[s := vm.contents[f]]), f);
    forall j | j in vm.ptes ensures !Holds(vm.ptes[j], s) { FreeSlotUnheld(vm, s, j); }
    CountsFollow(vm, vm', k, e);
    forall j | j in vm.ptes && j != k ensures PairOK(vm', k, j) { NoSlotPair(vm', k, j, s); }
    PairsFollow(vm, vm', k, e);
    forall j | j in vm'.ptes
      ensures EntryOK(vm', j)
    {
      assert EntryOK(vm, j);
      if j != k && Names(vm.ptes[j], f) { OnlyRef(vm, j, k); }
    }
  }

  lemma NoSlotPair(vm: Vm, k: Key, j: Key, s: nat)
    requires k in vm.ptes && j in vm.ptes && vm.ptes[k] == Swapped(s) && !Holds(vm.ptes[j], s)
    ensures PairOK(vm, k, j)
  {
  }

  /** Swapping out changes no view of private memory: dirty pages are written to their slot, clean
      ones can be loaded again. */
  lemma SwapOutOK(vm: Vm, k: Key, recent: bool, slot: Slotted)
    requires Inv(vm) && (slot.Found? ==> Cnt(vm.swapMap, slot.s) == 0)
    ensures Inv(SwapOut(vm, k, recent, slot).0)
    ensures forall j :: (j != k || Private(vm, k)) ==> View(SwapOut(vm, k, recent, slot).0, j) == View(vm, j)
  {
    if k in vm.ptes && vm.ptes[k].Present? && vm.ptes[k].frame !in vm.reserved {
      var p := vm.ptes[k];
      assert EntryOK(vm, k);
      AgeOK(vm, k);
      if !p.accessed && !recent {
        if p.dirty {
          if Cnt(vm.memMap, p.frame) == 1 && slot.Found? { WriteOutOK(vm, k, slot.s); }
        } else {
          DropOK(vm, k);
          if p.cow { DropView(vm, k); }
        }
      }
    }
  }

  lemma DropView(vm: Vm, k: Key)
    requires Inv(vm) && k in vm.ptes && vm.ptes[k].Present? && vm.ptes[k].cow && !vm.ptes[k].dirty
    ensures View(DropPte(vm, k), k) == View(vm, k)
  {
    hide CountOK, SlotOK, PairOK;
    assert EntryOK(vm, k);
  }

  // ---- putting a fresh page in place ----

  /** Enter the kernel's page n, whose content is c, writable and private. */
  function Enter(vm: Vm, k: Key, n: nat, c: Page, dirty: bool): Vm
    requires Cnt(vm.held, n) >= 1
  {
    vm.(contents := vm.contents[n := c], ptes := vm.ptes[k := Present(n, true, true, dirty, true)],
        held := vm.held[n := Cnt(vm.held, n) - 1])
  }

  /** Entering a page at an empty entry, or over a swapped one that is then freed. */
  lemma EnterOK(vm: Vm, k: Key, n: nat, c: Page, dirty: bool)
    requires Inv(vm) && Fresh(vm, n) && (k in vm.ptes ==> vm.ptes[k].Swapped?)
    requires !dirty ==> k in vm.base && vm.base[k] == c
    ensures var vm1 := Enter(vm, k, n, c, dirty);
            var vm' := if k in vm.ptes then SwapFree(vm1, vm.ptes[k].slot) else vm1;
            Inv(vm') && View(vm', k) == Just(c) && forall j :: j != k ==> View(vm', j) == View(vm, j)
  {
    hide CountOK, SlotOK, PairOK, EntryOK;
    var e := Entry(Present(n, true, true, dirty, true));
    var vm1 := Enter(vm, k, n, c, dirty);
    var vm' := if k in vm.ptes then SwapFree(vm1, vm.ptes[k].slot) else vm1;
    forall j | j in vm.ptes ensures !Names(vm.ptes[j], n) { FreshUnnamed(vm, n, j); }
    EnterBalanced(vm, k, n, c, dirty, vm');
    hide Balanced;
    CountsFollow(vm, vm', k, e);
    forall j | j in vm.ptes && j != k ensures PairOK(vm', k, j) { NoPair(vm', k, j, n); }
    PairsFollow(vm, vm', k, e);
    forall j | j in vm'.ptes ensures EntryOK(vm', j) { EnterEntry(vm, k, n, c, dirty, j, vm'); }
  }

  lemma EnterBalanced(vm: Vm, k: Key, n: nat, c: Page, dirty: bool, vm': Vm)
    requires Inv(vm) && Fresh(vm, n) && (k in vm.ptes ==> vm.ptes[k].Swapped?)
    requires vm' == if k in vm.ptes then SwapFree(Enter(vm, k, n, c, dirty), vm.ptes[k].slot)
      else Enter(vm, k, n, c, dirty)
    ensures Balanced(vm, vm', k, Entry(Present(n, true, true, dirty, true)))
  {
    hide CountOK, SlotOK, PairOK, EntryOK;
    if k in vm.ptes { SlotReferenced(vm, k, vm.ptes[k].slot); }
  }

  lemma EnterEntry(vm: Vm, k: Key, n: nat, c: Page, dirty: bool, j: Key, vm': Vm)
    requires Inv(vm) && Fresh(vm, n) && (j in vm.ptes || j == k)
    requires !dirty ==> k in vm.base && vm.base[k] == c
    requires vm' == Enter(vm, k, n, c, dirty).(swapMap := vm'.swapMap)
    ensures EntryOK(vm', j)
  {
    hide CountOK, SlotOK, PairOK;
    if j != k {
      assert EntryOK(vm, j);
      FreshUnnamed(vm, n, j);
    }
  }

  /** swap_in (mm/swap.c:193-222) once page n has been taken and read: the entry is looked at again. */
  function SwapIn(vm: Vm, k: Key, s: nat, n: nat): Vm
    requires Cnt(vm.held, n) >= 1
  {
    if k in vm.ptes && vm.ptes[k] == Swapped(s) && s in vm.swapData
    then SwapFree(Enter(vm, k, n, vm.swapData[s], true), s)
    else GivePage(vm, n)
  }

  lemma SwapInOK(vm: Vm, k: Key, s: nat, n: nat)
    requires Inv(vm) && Fresh(vm, n)
    ensures Inv(SwapIn(vm, k, s, n))
    ensures forall j :: View(SwapIn(vm, k, s, n), j) == View(vm, j)
  {
    hide CountOK, SlotOK, PairOK;
    if k in vm.ptes && vm.ptes[k] == Swapped(s) && s in vm.swapData {
      EnterOK(vm, k, n, vm.swapData[s], true);
    } else {
      GiveOK(vm, n);
    }
  }

  /** get_empty_page and file_mmap_nopage (mm/memory.c:672-682, 1124-1177): at an empty entry, the page that belongs
      there, of zeros or read from the file; a page of a private file mapping is read-only at first. */
  function Load(vm: Vm, k: Key, n: nat, rw: bool): Vm
    requires Cnt(vm.held, n) >= 1 && k in vm.base
  {
    var vm' := Enter(vm, k, n, vm.base[k], false);
    if rw then vm' else vm'.(ptes := vm'.ptes[k := vm'.ptes[k].(rw := false)])
  }

  lemma LoadOK(vm: Vm, k: Key, n: nat, rw: bool)
    requires Inv(vm) && Fresh(vm, n) && k !in vm.ptes && k in vm.base
    ensures Inv(Load(vm, k, n, rw))
    ensures forall j :: View(Load(vm, k, n, rw), j) == View(vm, j)
  {
    hide Inv;
    EnterOK(vm, k, n, vm.base[k], false);
    ProtectOK(Enter(vm, k, n, vm.base[k], false), k);
  }

  // ---- sharing a clean page with another task that runs the same program ----

  /** try_to_share (mm/memory.c:698-747): task t takes task p's clean page at the same address, or a
      copy of it in page n if it wants to write.  `spare` tells whether page n exists. */
  function TryToShare(vm: Vm, t: nat, p: nat, v: nat, write: bool, spare: bool, n: nat): (Vm, bool)
    requires spare ==> Cnt(vm.held, n) >= 1
  {
    var from, to := (p, v), (t, v);
    if from !in vm.ptes || !vm.ptes[from].Present? || vm.ptes[from].dirty || vm.ptes[from].frame in vm.reserved
      || to in vm.ptes
       || vm.ptes[from].frame !in vm.contents then (vm, false)
    else
      var q := vm.ptes[from];
      if write then
        if !spare then (vm, false) else (Enter(vm, to, n, vm.contents[q.frame], false), true)
      else
        var vm1 := vm.(ptes := vm.ptes[from := q.(rw := false)][to := q.(rw := false)],
                       memMap := vm.memMap[q.frame := Cnt(vm.memMap, q.frame) + 1]);
        (if spare then GivePage(vm1, n) else vm1, true)
  }

  /** Sharing gives t what p reads there, which is what t read there before, and changes nobody's view. */
  lemma ShareOK(vm: Vm, t: nat, p: nat, v: nat, write: bool, spare: bool, n: nat)
    requires Inv(vm) && t != p && (spare ==> Fresh(vm, n))
    requires (t, v) in vm.base && (p, v) in vm.base && vm.base[(t, v)] == vm.base[(p, v)] && Private(vm, (p, v))
    ensures var r := TryToShare(vm, t, p, v, write, spare, n);
            && Inv(r.0) && (!r.1 ==> r.0 == vm)
            && (r.1 ==> View(r.0, (t, v)) == View(vm, (p, v)))
            && forall j :: View(r.0, j) == View(vm, j)
  {
    var from, to := (p, v), (t, v);
    var r := TryToShare(vm, t, p, v, write, spare, n);
    if r.1 {
      assert EntryOK(vm, from);
      if write {
        EnterOK(vm, to, n, vm.contents[vm.ptes[from].frame], false);
      } else {
        ShareRead(vm, from, to, spare, n);
      }
    }
  }

  lemma ShareRead(vm: Vm, from: Key, to: Key, spare: bool, n: nat)
    requires Inv(vm) && (spare ==> Fresh(vm, n)) && from in vm.ptes && vm.ptes[from].Present? && to !in vm.ptes
      && from.1 == to.1
    requires vm.ptes[from].frame !in vm.reserved
    requires from in vm.base ==> to in vm.base && vm.base[to] == vm.base[from]
    ensures var q := vm.ptes[from];
            var vm1 := vm.(ptes := vm.ptes[from := q.(rw := false)][to := q.(rw := false)],
                           memMap := vm.memMap[q.frame := Cnt(vm.memMap, q.frame) + 1]);
            var vm' := if spare then GivePage(vm1, n) else vm1;
            Inv(vm') && View(vm', to) == View(vm, from) && forall j :: j != to ==> View(vm', j) == View(vm, j)
  {
    hide CountOK, SlotOK, PairOK, EntryOK;
    var q := vm.ptes[from];
    ProtectOK(vm, from);
    var vm0 := vm.(ptes := vm.ptes[from := q.(rw := false)]);
    ShareFrame(vm0, from, to);
    if spare {
      assert Fresh(vm0, n);
      FreshUnnamed(vm0, n, from);
      var vm1 := vm0.(ptes := vm0.ptes[to := vm0.ptes[from]],
        memMap := vm0.memMap[q.frame := Cnt(vm0.memMap, q.frame) + 1]);
      GiveOK(vm1, n);
    }
  }

  // ---- mapping zeros, and unmapping ----

  /** One entry of unmap_page_range, or of zeromap_page_range with no mask: nothing is mapped there
      any more. */
  function Unmap(vm: Vm, k: Key): Vm {
    var vm1 := DropPte(vm, k);
    vm1.(base := vm1.base - {k})
  }

  /** One entry of zeromap_page_range (mm/memory.c:361-371): the shared page of zeros, read-only. */
  function ZeroMap(vm: Vm, k: Key, cow: bool): Vm {
    var vm1 := DropPte(vm, k);
    vm1.(base := vm1.base[k := 0], ptes := vm1.ptes[k := Present(vm1.zero, false, cow, false, true)])
  }

  lemma RebaseOK(vm: Vm, k: Key, base': map<Key, Page>)
    requires Inv(vm) && k !in vm.ptes && (base' == vm.base - {k} || base' == vm.base[k := 0])
    ensures Inv(vm.(base := base'))
    ensures forall j :: j != k ==> View(vm.(base := base'), j) == View(vm, j)
  {
    var vm' := vm.(base := base');
    forall f ensures CountOK(vm', f) { assert CountOK(vm, f); }
    forall s ensures SlotOK(vm', s) { assert SlotOK(vm, s); }
    forall j | j in vm.ptes ensures EntryOK(vm', j) { assert EntryOK(vm, j); }
    forall i, j | i in vm'.ptes && j in vm'.ptes ensures PairOK(vm', i, j) { assert PairOK(vm, i, j); }
  }

  lemma UnmapOK(vm: Vm, k: Key)
    requires Inv(vm)
    ensures Inv(Unmap(vm, k)) && View(Unmap(vm, k), k) == Nothing && k !in Unmap(vm, k).ptes
    ensures forall j :: j != k ==> View(Unmap(vm, k), j) == View(vm, j)
  {
    hide Inv;
    DropOK(vm, k);
    var vm1 := DropPte(vm, k);
    RebaseOK(vm1, k, vm1.base - {k});
  }

  lemma ZeroMapOK(vm: Vm, k: Key, cow: bool)
    requires Inv(vm)
    ensures Inv(ZeroMap(vm, k, cow)) && View(ZeroMap(vm, k, cow), k) == Just(0)
    ensures forall j :: j != k ==> View(ZeroMap(vm, k, cow), j) == View(vm, j)
  {
    hide CountOK, SlotOK, PairOK, EntryOK;
    DropOK(vm, k);
    var vm1 := DropPte(vm, k);
    RebaseOK(vm1, k, vm1.base[k := 0]);
    var vm2 := vm1.(base := vm1.base[k := 0]);
    assert k !in vm2.ptes;
    ZeroEntry(vm2, k, cow);
  }

  lemma ZeroEntry(vm: Vm, k: Key, cow: bool)
    requires Inv(vm) && k !in vm.ptes && k in vm.base && vm.base[k] == 0
    ensures var vm' := vm.(ptes := vm.ptes[k := Present(vm.zero, false, cow, false, true)]);
            Inv(vm') && View(vm', k) == Just(0) && forall j :: j != k ==> View(vm', j) == View(vm, j)
  {
    hide CountOK, SlotOK;
    var e := Entry(Present(vm.zero, false, cow, false, true));
    var vm' := vm.(ptes := vm.ptes[k := e.pte]);
    CountsFollow(vm, vm', k, e);
    PairsFollow(vm, vm', k, e);
    forall j | j in vm'.ptes ensures EntryOK(vm', j) { if j != k { assert EntryOK(vm, j); } }
  }
}
