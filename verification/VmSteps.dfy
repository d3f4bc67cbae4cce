/** What each step does to the page table entries, the counts and the pages, beside keeping everybody's view
    (mm/memory.c:243-257, 361-371, 548-646, 698-747, mm/swap.c:193-261): a page is brought in, shared, copied and put
    out, exactly when the code does. */
module VmSteps {
  import opened Vm
  import opened VmOps
  import opened VmCow
  import opened VmSwap

  /** A frame that nobody refers to. */
  predicate Idle(vm: Vm, f: nat) {
    Cnt(vm.memMap, f) == 0 && Cnt(vm.held, f) == 0
  }

  /** Only the entry of k may differ. */
  predicate OnlyAt(ptes: map<Key, Pte>, ptes': map<Key, Pte>, k: Key) {
    ptes' - {k} == ptes - {k}
  }

  /** A page that the kernel took has one reference, its own, and none once it is given back. */
  lemma GiveDoes(vm: Vm, f: nat)
    requires Inv(vm) && Fresh(vm, f)
    ensures Idle(GivePage(vm, f), f) && GivePage(vm, f).ptes == vm.ptes && GivePage(vm, f).swapMap == vm.swapMap
  {
  }

  /** A store leaves the page dirty and accessed, with the new content. */
  lemma StoreDoes(vm: Vm, k: Key, c: Page)
    requires k in vm.ptes && vm.ptes[k].Present? && vm.ptes[k].rw
    ensures var vm', p := Store(vm, k, c), vm.ptes[k];
      && OnlyAt(vm.ptes, vm'.ptes, k) && k in vm'.ptes
      && vm'.ptes[k] == Present(p.frame, true, p.cow, true, true)
      && p.frame in vm'.contents && vm'.contents[p.frame] == c
      && vm'.memMap == vm.memMap && vm'.swapMap == vm.swapMap
  {
  }

  /** The page of a slot comes back into the fresh page, for its task alone, and the slot has one user fewer; unless the
      entry is not that slot's any more, when nothing changes but that the page is free again. */
  lemma SwapInDoes(vm: Vm, k: Key, s: nat, n: nat)
    requires Inv(vm) && Fresh(vm, n)
    ensures var vm' := SwapIn(vm, k, s, n);
      if k in vm.ptes && vm.ptes[k] == Swapped(s) then
        && OnlyAt(vm.ptes, vm'.ptes, k) && k in vm'.ptes && vm'.ptes[k] == Present(n, true, true, true, true)
        && s in vm.swapData && n in vm'.contents && vm'.contents[n] == vm.swapData[s]
        && Cnt(vm'.swapMap, s) == Cnt(vm.swapMap, s) - 1
        && (forall x :: x != s ==> Cnt(vm'.swapMap, x) == Cnt(vm.swapMap, x))
        && Cnt(vm'.memMap, n) == 1 && Cnt(vm'.held, n) == 0
      else vm'.ptes == vm.ptes && vm'.swapMap == vm.swapMap && Idle(vm', n)
  {
    if k in vm.ptes && vm.ptes[k] == Swapped(s) {
      SlotReferenced(vm, k, s);
      assert EntryOK(vm, k);
      var vm' := SwapIn(vm, k, s, n);
      assert vm'.ptes == vm.ptes[k := Present(n, true, true, true, true)];
    }
  }

  /** Can this page be put out now? */
  predicate Evictable(vm: Vm, k: Key, recent: bool, slot: Slotted) {
    && k in vm.ptes && vm.ptes[k].Present? && vm.ptes[k].frame !in vm.reserved
    && !vm.ptes[k].accessed && !recent
    && (vm.ptes[k].dirty ==> Cnt(vm.memMap, vm.ptes[k].frame) == 1 && slot.Found?)
  }

  /** A page goes exactly if it can: a clean one leaves no entry, a dirty one, which nobody else has, goes to the slot.
      One reference to its frame goes too, and the result is positive and tells how many are left.  Otherwise an
      accessed page is marked as not accessed, and that is all. */
  lemma SwapOutDoes(vm: Vm, k: Key, recent: bool, slot: Slotted)
    requires Inv(vm) && (slot.Found? ==> Cnt(vm.swapMap, slot.s) == 0)
    ensures var (vm', r) := SwapOut(vm, k, recent, slot);
      && OnlyAt(vm.ptes, vm'.ptes, k)
      && (r > 0 <==> Evictable(vm, k, recent, slot))
      && (r > 0 ==>
            var p := vm.ptes[k];
            && Cnt(vm'.memMap, p.frame) == Cnt(vm.memMap, p.frame) - 1 && r == 1 + Cnt(vm'.memMap, p.frame)
            && (p.dirty ==>
                  && p.frame in vm.contents && k in vm'.ptes && vm'.ptes[k] == Swapped(slot.s)
                  && Cnt(vm'.swapMap, slot.s) == 1 && slot.s in vm'.swapData
                  && vm'.swapData[slot.s] == vm.contents[p.frame])
            && (!p.dirty ==> k !in vm'.ptes && vm'.swapMap == vm.swapMap))
      && (r == 0 ==>
            if k in vm.ptes && vm.ptes[k].Present? && vm.ptes[k].frame !in vm.reserved
            then vm' == vm.(ptes := vm.ptes[k := vm.ptes[k].(accessed := false)])
                 || (vm' == vm && !vm.ptes[k].accessed)
            else vm' == vm)
  {
    if k in vm.ptes && vm.ptes[k].Present? && vm.ptes[k].frame !in vm.reserved {
      assert EntryOK(vm, k);
      Unreferenced(vm, k, vm.ptes[k].frame);
    }
  }

  /** The answer to a write fault: a signal for the user's own fault on a page that is neither writable nor to be
      copied; a page is needed if the frame is reserved or has other references; otherwise the fault is resolved, by
      making the lone page writable and dirty if it was there and not writable. */
  lemma FaultDoes(vm: Vm, k: Key, user: bool)
    requires Inv(vm)
    ensures var (vm', r) := WpFault(vm, k, user);
      var there := k in vm.ptes && vm.ptes[k].Present? && !vm.ptes[k].rw;
      && (r == Segv <==> there && user && !vm.ptes[k].cow)
      && (r == NeedsPage <==>
            && there && !(user && !vm.ptes[k].cow)
            && (vm.ptes[k].frame in vm.reserved || Cnt(vm.memMap, vm.ptes[k].frame) != 1))
      && OnlyAt(vm.ptes, vm'.ptes, k) && vm'.memMap == vm.memMap && vm'.contents == vm.contents
      && (if there && r == Resolved
          then k in vm'.ptes && vm'.ptes[k] == vm.ptes[k].(rw := true, dirty := true)
          else vm' == vm)
  {
  }

  /** With the page at hand: if the frame is still shared or reserved the task gets a copy of its own, and one
      reference to the old frame goes; if not, the page is free again, and a lone page is writable. */
  lemma CopyFaultDoes(vm: Vm, k: Key, n: nat)
    requires Inv(vm) && Fresh(vm, n)
    ensures var vm' := WpCopy(vm, k, n);
      var there := k in vm.ptes && vm.ptes[k].Present? && !vm.ptes[k].rw;
      && OnlyAt(vm.ptes, vm'.ptes, k)
      && (if there && (vm.ptes[k].frame in vm.reserved || Cnt(vm.memMap, vm.ptes[k].frame) != 1)
          then
            var f := vm.ptes[k].frame;
            && k in vm'.ptes && vm'.ptes[k] == vm.ptes[k].(frame := n, rw := true)
            && f in vm.contents && n in vm'.contents && vm'.contents[n] == vm.contents[f]
            && Cnt(vm'.memMap, n) == 1 && Cnt(vm'.held, n) == 0
            && (f !in vm.reserved ==> Cnt(vm'.memMap, f) == Cnt(vm.memMap, f) - 1)
          else
            Idle(vm', n) && (if there then k in vm'.ptes && vm'.ptes[k] == vm.ptes[k].(rw := true)
            else vm'.ptes == vm.ptes))
  {
    if k in vm.ptes && vm.ptes[k].Present? {
      assert EntryOK(vm, k);
      FreshUnnamed(vm, n, k);
      if vm.ptes[k].frame !in vm.reserved { Unreferenced(vm, k, vm.ptes[k].frame); }
    }
  }

  /** Fork copies no page: the child's entry is the parent's, which both keep, read-only if it was private, with one
      more reference to the frame or slot; and no entry for none. */
  lemma ForkDoes(vm: Vm, parent: nat, child: nat, v: nat)
    requires Inv(vm) && parent != child && (child, v) !in vm.ptes
    ensures var vm' := CopyPte(vm, parent, child, v);
      && ((child, v) in vm'.ptes <==> (parent, v) in vm.ptes) && vm'.contents == vm.contents
      && ((parent, v) in vm.ptes ==>
            var p := vm.ptes[(parent, v)];
            && vm'.ptes[(child, v)] == vm'.ptes[(parent, v)]
            && (p.Swapped? ==> vm'.ptes[(parent, v)] == p && Cnt(vm'.swapMap, p.slot) == Cnt(vm.swapMap, p.slot) + 1)
            && (p.Present? ==>
                  && vm'.ptes[(parent, v)] == (if p.cow then p.(rw := false) else p)
                  && (p.frame !in vm.reserved ==> Cnt(vm'.memMap, p.frame) == Cnt(vm.memMap, p.frame) + 1)))
  {
    var k := (parent, v);
    if k in vm.ptes {
      assert EntryOK(vm, k);
      if vm.ptes[k].Swapped? { SlotReferenced(vm, k, vm.ptes[k].slot); }
    }
  }

  /** Mapping zeros puts the shared page of zeros in place, read-only. */
  lemma ZeroDoes(vm: Vm, k: Key, cow: bool)
    ensures var vm' := ZeroMap(vm, k, cow);
      k in vm'.ptes && OnlyAt(vm.ptes, vm'.ptes, k) && vm'.ptes[k] == Present(vm.zero, false, cow, false, true)
  {
    assert DropPte(vm, k).ptes == vm.ptes - {k} && DropPte(vm, k).zero == vm.zero;
    hide DropPte;
  }

  /** Loading puts the fresh page there, with what belongs there. */
  lemma LoadDoes(vm: Vm, k: Key, n: nat, rw: bool)
    requires Inv(vm) && Fresh(vm, n) && k !in vm.ptes && k in vm.base
    ensures var vm' := Load(vm, k, n, rw);
      && k in vm'.ptes && vm'.ptes[k] == Present(n, rw, true, false, true) && OnlyAt(vm.ptes, vm'.ptes, k)
      && n in vm'.contents && vm'.contents[n] == vm.base[k] && Cnt(vm'.memMap, n) == 1 && Cnt(vm'.held, n) == 0
  {
  }

  /** A page can be shared if the other task has it, clean and not reserved, and this one has no entry there. */
  predicate Sharable(vm: Vm, t: nat, p: nat, v: nat) {
    && (p, v) in vm.ptes && vm.ptes[(p, v)].Present? && !vm.ptes[(p, v)].dirty
    && vm.ptes[(p, v)].frame !in vm.reserved && (t, v) !in vm.ptes
  }

  /** It is shared exactly if it can be, and for writing only with a spare page, which then gets a copy; to read, both
      have the frame, neither writable, and the spare page is free again. */
  lemma ShareDoes(vm: Vm, t: nat, p: nat, v: nat, write: bool, spare: bool, n: nat)
    requires Inv(vm) && t != p && (spare ==> Fresh(vm, n))
    ensures var (vm', ok) := TryToShare(vm, t, p, v, write, spare, n);
      && (ok <==> Sharable(vm, t, p, v) && (write ==> spare)) && (!ok ==> vm' == vm)
      && (ok ==>
            var q := vm.ptes[(p, v)];
            && (t, v) in vm'.ptes && (p, v) in vm'.ptes
            && (if write then
                  && vm'.ptes[(t, v)] == Present(n, true, true, false, true) && vm'.ptes[(p, v)] == q
                  && q.frame in vm.contents && n in vm'.contents && vm'.contents[n] == vm.contents[q.frame]
                else
                  && vm'.ptes[(t, v)] == vm'.ptes[(p, v)] == q.(rw := false)
                  && Cnt(vm'.memMap, q.frame) == Cnt(vm.memMap, q.frame) + 1
                  && (spare ==> Idle(vm', n))))
  {
    if Sharable(vm, t, p, v) {
      assert EntryOK(vm, (p, v));
      if spare { FreshUnnamed(vm, n, (p, v)); }
    }
  }
}
