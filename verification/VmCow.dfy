/** Fork and the write fault (mm/memory.c:206-263, 548-646): sharing pages for copy-on-write and
    undoing it, one entry at a time. */
module VmCow {
  import opened Vm
  import opened VmOps

  /** A store by the user through a writable entry: the hardware sets the dirty bit. */
  function Store(vm: Vm, k: Key, c: Page): Vm
    requires k in vm.ptes && vm.ptes[k].Present? && vm.ptes[k].rw
  {
    var p := vm.ptes[k];
    vm.(contents := vm.contents[p.frame := c], ptes := vm.ptes[k := p.(dirty := true, accessed := true)])
  }

  /** A page nobody may share for writing: not present, or present and copy-on-write. */
  predicate Private(vm: Vm, k: Key) {
    k in vm.ptes && vm.ptes[k].Present? ==> vm.ptes[k].cow
  }

  /** A store to a private page is seen by its owner and by nobody else; a store to a page that is
      not private is seen only at entries that are not private. */
  lemma StoreOK(vm: Vm, k: Key, c: Page)
    requires Inv(vm) && k in vm.ptes && vm.ptes[k].Present? && vm.ptes[k].rw
    ensures Inv(Store(vm, k, c)) && View(Store(vm, k, c), k) == Just(c)
    ensures forall j :: j != k && (vm.ptes[k].cow || Private(vm, j)) ==> View(Store(vm, k, c), j) == View(vm, j)
  {
    hide CountOK, SlotOK;
    var vm' := Store(vm, k, c);
    var p := vm.ptes[k];
    assert EntryOK(vm, k);
    CountsFollow(vm, vm', k, Entry(vm'.ptes[k]));
    forall j | j in vm.ptes && j != k
      ensures PairOK(vm', k, j)
    {
      assert PairOK(vm, k, j);
    }
    PairsFollow(vm, vm', k, Entry(vm'.ptes[k]));
    forall j | j in vm'.ptes
      ensures EntryOK(vm', j)
      ensures j != k && Names(vm.ptes[j], p.frame) ==> !p.cow && !vm.ptes[j].cow
    {
      assert EntryOK(vm, j) && PairOK(vm, k, j);
      if j != k && Names(vm.ptes[j], p.frame) && p.cow { OnlyRef(vm, k, j); }
    }
  }

  // ---- fork ----

  /** The entry a fork leaves in both tasks: a private writable page loses its write permission. */
  function ForkEntry(p: Pte): Pte {
    if p.Present? && p.rw && p.cow then p.(rw := false) else p
  }

  /** copy_page_tables for one entry (mm/memory.c:243-257). */
  function CopyPte(vm: Vm, parent: nat, child: nat, v: nat): Vm {
    if (parent, v) !in vm.ptes then vm
    else
      match vm.ptes[(parent, v)]
      case Swapped(s) =>
        if Cnt(vm.swapMap, s) == 0 then vm
        else vm.(ptes := vm.ptes[(child, v) := Swapped(s)], swapMap := vm.swapMap[s := Cnt(vm.swapMap, s) + 1])
      case Present(f, _, _, _, _) =>
        var p := ForkEntry(vm.ptes[(parent, v)]);
        if f in vm.reserved then vm.(ptes := vm.ptes[(child, v) := p])
        else vm.(ptes := vm.ptes[(parent, v) := p][(child, v) := p], memMap := vm.memMap[f := Cnt(vm.memMap, f) + 1])
  }

  /** The child loads its pages from where the parent does (dup_mmap, kernel/fork.c:88-107). */
  function DupBase(vm: Vm, parent: nat, child: nat): Vm {
    vm.(base := vm.base + (map k: Key | k in vm.base && k.0 == parent :: (child, k.1) := vm.base[k]))
  }

  lemma DupBaseOK(vm: Vm, parent: nat, child: nat)
    requires Inv(vm) && forall k: Key :: k in vm.ptes || k in vm.base ==> k.0 != child
    ensures Inv(DupBase(vm, parent, child))
    ensures forall j: Key :: j.0 != child ==> View(DupBase(vm, parent, child), j) == View(vm, j)
    ensures forall v: nat :: SameBase(DupBase(vm, parent, child), (parent, v), (child, v))
  {
    hide CountOK, SlotOK, PairOK;
    forall v: nat ensures SameBase(DupBase(vm, parent, child), (parent, v),
      (child, v)) { DupSame(vm, parent, child, v); }
    DupInv(vm, parent, child);
  }

  lemma DupSame(vm: Vm, parent: nat, child: nat, v: nat)
    requires forall k: Key :: k in vm.base ==> k.0 != child
    ensures SameBase(DupBase(vm, parent, child), (parent, v), (child, v))
  {
    var vm' := DupBase(vm, parent, child);
    if (child, v) in vm'.base {
      var k: Key :| k in vm.base && k.0 == parent && (child, k.1) == (child, v);
      assert k == (parent, v);
    }
  }

  lemma DupInv(vm: Vm, parent: nat, child: nat)
    requires Inv(vm) && forall k: Key :: k in vm.ptes || k in vm.base ==> k.0 != child
    ensures Inv(DupBase(vm, parent, child))
  {
    var vm' := DupBase(vm, parent, child);
    forall f ensures CountOK(vm', f) { assert CountOK(vm, f); }
    forall s ensures SlotOK(vm', s) { assert SlotOK(vm, s); }
    forall j | j in vm.ptes ensures EntryOK(vm', j) { assert EntryOK(vm, j); }
    forall i, j | i in vm'.ptes && j in vm'.ptes ensures PairOK(vm', i, j) { assert PairOK(vm, i, j); }
  }

  predicate SameBase(vm: Vm, k: Key, k': Key) {
    (k in vm.base <==> k' in vm.base) && (k in vm.base ==> vm.base[k] == vm.base[k'])
  }

  /** Taking away write permission keeps everything. */
  lemma ProtectOK(vm: Vm, k: Key)
    requires Inv(vm) && k in vm.ptes && vm.ptes[k].Present?
    ensures Inv(vm.(ptes := vm.ptes[k := vm.ptes[k].(rw := false)]))
    ensures forall j :: View(vm.(ptes := vm.ptes[k := vm.ptes[k].(rw := false)]), j) == View(vm, j)
  {
    hide CountOK, SlotOK;
    var e := Entry(vm.ptes[k].(rw := false));
    var vm' := vm.(ptes := vm.ptes[k := e.pte]);
    CountsFollow(vm, vm', k, e);
    forall j | j in vm.ptes && j != k ensures PairOK(vm', k, j) { assert PairOK(vm, k, j); }
    PairsFollow(vm, vm', k, e);
    forall j | j in vm'.ptes ensures EntryOK(vm', j) { assert EntryOK(vm, j); }
  }

  /** The child's page reads like the parent's, and nobody's view changes. */
  lemma CopyOK(vm: Vm, parent: nat, child: nat, v: nat)
    requires Inv(vm) && parent != child && (child, v) !in vm.ptes && SameBase(vm, (parent, v), (child, v))
    ensures Inv(CopyPte(vm, parent, child, v))
    ensures forall j :: j != (child, v) ==> View(CopyPte(vm, parent, child, v), j) == View(vm, j)
    ensures View(CopyPte(vm, parent, child, v), (child, v)) == View(vm, (parent, v))
  {
    hide CountOK, SlotOK, PairOK;
    var k, k' := (parent, v), (child, v);
    if k in vm.ptes {
      match vm.ptes[k] {
        case Swapped(s) =>
          SlotReferenced(vm, k, s);
          ShareSlot(vm, k, k', s);
        case Present(f, rw, cow, _, _) =>
          assert EntryOK(vm, k);
          if rw && cow {
            ProtectOK(vm, k);
            ShareFrame(vm.(ptes := vm.ptes[k := ForkEntry(vm.ptes[k])]), k, k');
          } else {
            assert vm.ptes[k := ForkEntry(vm.ptes[k])] == vm.ptes;
            ShareFrame(vm, k, k');
          }
      }
    }
  }

  lemma ShareSlot(vm: Vm, k: Key, k': Key, s: nat)
    requires Inv(vm) && k in vm.ptes && vm.ptes[k] == Swapped(s) && k' !in vm.ptes && k.1 == k'.1
    ensures var vm' := vm.(ptes := vm.ptes[k' := Swapped(s)], swapMap := vm.swapMap[s := Cnt(vm.swapMap, s) + 1]);
            && Inv(vm') && View(vm', k') == View(vm, k) && forall j :: j != k' ==> View(vm', j) == View(vm, j)
  {
    hide CountOK, SlotOK;
    var e := Entry(Swapped(s));
    var vm' := vm.(ptes := vm.ptes[k' := e.pte], swapMap := vm.swapMap[s := Cnt(vm.swapMap, s) + 1]);
    CountsFollow(vm, vm', k', e);
    assert EntryOK(vm, k);
    forall j | j in vm.ptes && j != k' ensures PairOK(vm', k', j) { assert PairOK(vm, k, j); }
    PairsFollow(vm, vm', k', e);
    forall j | j in vm'.ptes ensures EntryOK(vm', j) { if j != k' { assert EntryOK(vm, j); } }
  }

  /** A second reference to a frame that nobody may write. */
  lemma ShareFrame(vm: Vm, k: Key, k': Key)
    requires Inv(vm) && k in vm.ptes && vm.ptes[k].Present? && k' !in vm.ptes && k.1 == k'.1
    requires !(vm.ptes[k].rw && vm.ptes[k].cow)
    requires k in vm.base ==> k' in vm.base && vm.base[k'] == vm.base[k]
    ensures var p := vm.ptes[k];
            var vm' := vm.(ptes := vm.ptes[k' := p], memMap := if p.frame in vm.reserved then vm.memMap
            else vm.memMap[p.frame := Cnt(vm.memMap, p.frame) + 1]);
            && Inv(vm') && View(vm', k') == View(vm, k) && forall j :: j != k' ==> View(vm', j) == View(vm, j)
  {
    hide CountOK, SlotOK;
    var p := vm.ptes[k];
    var e := Entry(p);
    var vm' := vm.(ptes := vm.ptes[k' := p], memMap := if p.frame in vm.reserved then vm.memMap
      else vm.memMap[p.frame := Cnt(vm.memMap, p.frame) + 1]);
    CountsFollow(vm, vm', k', e);
    assert EntryOK(vm, k);
    forall j | j in vm.ptes && j != k' ensures PairOK(vm', k', j) { assert PairOK(vm, k, j); }
    PairsFollow(vm, vm', k', e);
    forall j | j in vm'.ptes
      ensures EntryOK(vm', j)
    {
      if j != k' {
        assert EntryOK(vm, j);
        if Names(vm.ptes[j], p.frame) && p.frame !in vm.reserved && vm.ptes[j].rw
          && vm.ptes[j].cow { OnlyRef(vm, j, k); }
      }
    }
  }

  // ---- the write fault ----

  /** Give a lone page write permission. */
  function Unprotect(vm: Vm, k: Key, dirty: bool): Vm
    requires k in vm.ptes && vm.ptes[k].Present?
  {
    vm.(ptes := vm.ptes[k := vm.ptes[k].(rw := true, dirty := vm.ptes[k].dirty || dirty)])
  }

  /** Replace a shared page by the kernel's fresh page n, which gets a copy of it. */
  function BreakCow(vm: Vm, k: Key, n: nat): Vm
    requires k in vm.ptes && vm.ptes[k].Present? && Cnt(vm.held, n) >= 1
  {
    var p := vm.ptes[k];
    var c := if p.frame in vm.contents then vm.contents[p.frame] else 0;
    FreePage(vm.(contents := vm.contents[n := c], ptes := vm.ptes[k := p.(frame := n, rw := true)],
                 held := vm.held[n := Cnt(vm.held, n) - 1]), p.frame)
  }

  /** __do_wp_page (mm/memory.c:554-607) once its page n has been allocated: everything is checked
      again, because other tasks ran during the allocation. */
  function WpCopy(vm: Vm, k: Key, n: nat): Vm
    requires Cnt(vm.held, n) >= 1
  {
    if k !in vm.ptes || !vm.ptes[k].Present? || vm.ptes[k].rw then GivePage(vm, n)
    else if vm.ptes[k].frame !in vm.reserved && Cnt(vm.memMap, vm.ptes[k].frame) == 1 then
      GivePage(Unprotect(vm, k, false), n)
    else BreakCow(vm, k, n)
  }

  datatype Fault = Resolved | Segv | NeedsPage

  /** do_wp_page (mm/memory.c:613-646). */
  function WpFault(vm: Vm, k: Key, user: bool): (Vm, Fault) {
    if k !in vm.ptes || !vm.ptes[k].Present? || vm.ptes[k].rw then (vm, Resolved)
    else if !vm.ptes[k].cow && user then (vm, Segv)
    else if vm.ptes[k].frame !in vm.reserved && Cnt(vm.memMap, vm.ptes[k].frame) == 1 then
      (Unprotect(vm, k, true), Resolved)
    else (vm, NeedsPage)
  }

  lemma UnprotectOK(vm: Vm, k: Key, dirty: bool)
    requires Inv(vm) && k in vm.ptes && vm.ptes[k].Present? && vm.ptes[k].frame !in vm.reserved
      && Cnt(vm.memMap, vm.ptes[k].frame) == 1
    ensures Inv(Unprotect(vm, k, dirty))
    ensures forall j :: View(Unprotect(vm, k, dirty), j) == View(vm, j)
  {
    hide CountOK, SlotOK;
    var vm' := Unprotect(vm, k, dirty);
    var e := Entry(vm'.ptes[k]);
    CountsFollow(vm, vm', k, e);
    forall j | j in vm.ptes && j != k ensures PairOK(vm', k, j) { assert PairOK(vm, k, j); }
    PairsFollow(vm, vm', k, e);
    forall j | j in vm'.ptes ensures EntryOK(vm', j) { assert EntryOK(vm, j); }
  }

  lemma BreakOK(vm: Vm, k: Key, n: nat)
    requires Inv(vm) && Fresh(vm, n) && k in vm.ptes && vm.ptes[k].Present?
    requires vm.ptes[k].frame in vm.reserved || Cnt(vm.memMap, vm.ptes[k].frame) != 1
    ensures Inv(BreakCow(vm, k, n)) && Cnt(BreakCow(vm, k, n).memMap, n) == 1
    ensures forall j :: View(BreakCow(vm, k, n), j) == View(vm, j)
  {
    hide CountOK, SlotOK, PairOK;
    var vm' := BreakCow(vm, k, n);
    var p := vm.ptes[k];
    var e := Entry(p.(frame := n, rw := true));
    assert EntryOK(vm, k);
    if p.frame !in vm.reserved { Unreferenced(vm, k, p.frame); }
    forall j | j in vm.ptes ensures !Names(vm.ptes[j], n) { FreshUnnamed(vm, n, j); }
    CountsFollow(vm, vm', k, e);
    forall j | j in vm.ptes && j != k ensures PairOK(vm', k, j) { NoPair(vm', k, j, n); }
    PairsFollow(vm, vm', k, e);
    forall j | j in vm'.ptes ensures EntryOK(vm', j) { BreakEntry(vm, k, n, j); }
  }

  lemma NoPair(vm: Vm, k: Key, j: Key, n: nat)
    requires k in vm.ptes && j in vm.ptes && vm.ptes[k].Present? && vm.ptes[k].frame == n && !Names(vm.ptes[j], n)
    ensures PairOK(vm, k, j)
  {
  }

  lemma BreakEntry(vm: Vm, k: Key, n: nat, j: Key)
    requires Inv(vm) && Fresh(vm, n) && k in vm.ptes && vm.ptes[k].Present? && j in vm.ptes
    requires vm.ptes[k].frame in vm.reserved || Cnt(vm.memMap, vm.ptes[k].frame) != 1
    ensures EntryOK(BreakCow(vm, k, n), j)
  {
    hide CountOK, SlotOK, PairOK;
    assert EntryOK(vm, j) && EntryOK(vm, k);
    FreshUnnamed(vm, n, j);
    FreshUnnamed(vm, n, k);
    var p, q := vm.ptes[k], vm.ptes[j];
    if j != k && q.Present? && q.frame == p.frame && q.frame !in vm.reserved && q.rw && q.cow {
      OnlyRef(vm, j, k);
    }
  }

  /** A write fault changes nobody's view; when it is resolved at once or by a page, a private
      entry that was present may be written afterwards. */
  lemma WpOK(vm: Vm, k: Key, user: bool)
    requires Inv(vm)
    ensures Inv(WpFault(vm, k, user).0)
    ensures forall j :: View(WpFault(vm, k, user).0, j) == View(vm, j)
    ensures WpFault(vm, k, user).1 == Resolved && k in vm.ptes && vm.ptes[k].Present? ==>
      WpFault(vm, k, user).0.ptes[k].rw
    ensures WpFault(vm, k, user).1 == Segv ==>
      k in vm.ptes && vm.ptes[k].Present? && !vm.ptes[k].cow && WpFault(vm, k, user).0 == vm
  {
    if k in vm.ptes && vm.ptes[k].Present? && vm.ptes[k].frame !in vm.reserved
      && Cnt(vm.memMap, vm.ptes[k].frame) == 1 {
      UnprotectOK(vm, k, true);
    }
  }

  lemma WpCopyOK(vm: Vm, k: Key, n: nat)
    requires Inv(vm) && Fresh(vm, n)
    ensures Inv(WpCopy(vm, k, n))
    ensures forall j :: View(WpCopy(vm, k, n), j) == View(vm, j)
    ensures k in vm.ptes && vm.ptes[k].Present? ==>
      k in WpCopy(vm, k, n).ptes && WpCopy(vm, k, n).ptes[k].Present? && WpCopy(vm, k, n).ptes[k].rw
  {
    hide Inv;
    if k !in vm.ptes || !vm.ptes[k].Present? || vm.ptes[k].rw {
      GiveOK(vm, n);
    } else if vm.ptes[k].frame !in vm.reserved && Cnt(vm.memMap, vm.ptes[k].frame) == 1 {
      UnprotectOK(vm, k, false);
      GiveOK(Unprotect(vm, k, false), n);
    } else {
      BreakOK(vm, k, n);
    }
  }
}
