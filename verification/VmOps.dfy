/** What fork, faults, unmapping and swapping do to a single page table entry, and that each keeps
    the invariant of module Vm and everybody's view of private memory. */
module VmOps {
  import opened Vm

  datatype Slot = NoEntry | Entry(pte: Pte)

  function Put(ptes: map<Key, Pte>, k: Key, e: Slot): map<Key, Pte> {
    match e
    case NoEntry => ptes - {k}
    case Entry(p) => ptes[k := p]
  }

  function At(ptes: map<Key, Pte>, k: Key): Slot {
    if k in ptes then Entry(ptes[k]) else NoEntry
  }

  function One(b: bool): nat { if b then 1 else 0 }

  predicate SlotNames(e: Slot, f: nat) { e.Entry? && Names(e.pte, f) }
  predicate SlotHolds(e: Slot, s: nat) { e.Entry? && Holds(e.pte, s) }

  /** The counts follow the one entry that changed. */
  ghost predicate Balanced(vm: Vm, vm': Vm, k: Key, e: Slot) {
    && vm'.ptes == Put(vm.ptes, k, e) && vm'.reserved == vm.reserved && vm'.zero == vm.zero
    && (forall f {:trigger Cnt(vm'.memMap, f)} :: f !in vm.reserved ==>
          Cnt(vm'.memMap, f) + One(SlotNames(At(vm.ptes, k), f)) + Cnt(vm.held, f)
          == Cnt(vm.memMap, f) + One(SlotNames(e, f)) + Cnt(vm'.held, f))
    && (forall s {:trigger Cnt(vm'.swapMap, s)} ::
          Cnt(vm'.swapMap, s) + One(SlotHolds(At(vm.ptes, k), s)) == Cnt(vm.swapMap, s) + One(SlotHolds(e, s)))
  }

  lemma CountsFollow(vm: Vm, vm': Vm, k: Key, e: Slot)
    requires Inv(vm) && Balanced(vm, vm', k, e)
    ensures forall f {:trigger CountOK(vm', f)} :: CountOK(vm', f)
    ensures forall s {:trigger SlotOK(vm', s)} :: SlotOK(vm', s)
  {
    forall f
      ensures CountOK(vm', f)
    {
      assert CountOK(vm, f);
      PutRefs(vm.ptes, k, e, f);
      assert Cnt(vm'.memMap, f) >= 0;
    }
    forall s
      ensures SlotOK(vm', s)
    {
      assert SlotOK(vm, s);
      PutRefs(vm.ptes, k, e, s);
      assert Cnt(vm'.swapMap, s) >= 0;
    }
  }

  lemma PutRefs(ptes: map<Key, Pte>, k: Key, e: Slot, f: nat)
    ensures |Refs(Put(ptes, k, e), f)| + One(SlotNames(At(ptes, k), f)) == |Refs(ptes, f)| + One(SlotNames(e, f))
    ensures |SlotRefs(Put(ptes, k, e), f)| + One(SlotHolds(At(ptes, k), f)) == |SlotRefs(ptes, f)|
      + One(SlotHolds(e, f))
  {
    match e
    case NoEntry => RefsClear(ptes, k, f);
    case Entry(p) => RefsSet(ptes, k, p, f);
  }

  lemma PairsFollow(vm: Vm, vm': Vm, k: Key, e: Slot)
    requires Inv(vm) && vm'.ptes == Put(vm.ptes, k, e) && vm'.reserved == vm.reserved
    requires e.Entry? ==> forall j {:trigger PairOK(vm', k, j)} :: j in vm.ptes && j != k ==> PairOK(vm', k, j)
    ensures forall i, j {:trigger PairOK(vm', i, j)} :: i in vm'.ptes && j in vm'.ptes ==> PairOK(vm', i, j)
  {
    forall i, j | i in vm'.ptes && j in vm'.ptes
      ensures PairOK(vm', i, j)
    {
      if i != k && j != k {
        assert PairOK(vm, i, j);
      } else if i == k && j != k {
        assert PairOK(vm', k, j);
      } else if j == k && i != k {
        assert PairOK(vm', k, i);
      }
    }
  }

  // ---- freeing ----

  /** free_page (mm/swap.c:509-538). */
  function FreePage(vm: Vm, f: nat): Vm {
    if f in vm.reserved || Cnt(vm.memMap, f) == 0 then vm else vm.(memMap := vm.memMap[f := Cnt(vm.memMap, f) - 1])
  }

  /** swap_free (mm/swap.c:153-191). */
  function SwapFree(vm: Vm, s: nat): Vm {
    if Cnt(vm.swapMap, s) == 0 then vm else vm.(swapMap := vm.swapMap[s := Cnt(vm.swapMap, s) - 1])
  }

  /** Clear an entry and give up what it named (mm/memory.c:96-105, 301-310). */
  function DropPte(vm: Vm, k: Key): Vm {
    if k !in vm.ptes then vm
    else
      var vm1 := vm.(ptes := vm.ptes - {k});
      match vm.ptes[k]
      case Present(f, _, _, _, _) => FreePage(vm1, f)
      case Swapped(s) => SwapFree(vm1, s)
  }

  lemma DropOK(vm: Vm, k: Key)
    requires Inv(vm)
    ensures Inv(DropPte(vm, k))
    ensures forall j :: j != k ==> View(DropPte(vm, k), j) == View(vm, j)
  {
    if k in vm.ptes {
      DropBalanced(vm, k);
      DropRest(vm, k, DropPte(vm, k));
    }
    forall j | j != k ensures View(DropPte(vm, k), j) == View(vm, j) { hide Inv; }
  }

  lemma DropRest(vm: Vm, k: Key, vm': Vm)
    requires Inv(vm) && k in vm.ptes && vm' == DropPte(vm, k) && Balanced(vm, vm', k, NoEntry)
    ensures Inv(vm')
  {
    hide CountOK, SlotOK, PairOK, EntryOK, Balanced;
    CountsFollow(vm, vm', k, NoEntry);
    PairsFollow(vm, vm', k, NoEntry);
    assert vm'.ptes == vm.ptes - {k};
    forall j | j in vm'.ptes
      ensures EntryOK(vm', j)
    {
      DropEntry(vm, k, j);
    }
  }

  lemma DropBalanced(vm: Vm, k: Key)
    requires Inv(vm) && k in vm.ptes
    ensures Balanced(vm, DropPte(vm, k), k, NoEntry)
  {
    hide CountOK, SlotOK, PairOK, EntryOK;
    match vm.ptes[k] {
      case Present(f, _, _, _, _) => if f !in vm.reserved { Unreferenced(vm, k, f); }
      case Swapped(s) => SlotReferenced(vm, k, s);
    }
  }

  lemma DropEntry(vm: Vm, k: Key, j: Key)
    requires Inv(vm) && k in vm.ptes && j in vm.ptes && j != k
    ensures EntryOK(DropPte(vm, k), j)
  {
    hide CountOK, SlotOK, PairOK;
    assert EntryOK(vm, j);
    var p, q := vm.ptes[k], vm.ptes[j];
    if p.Present? && q.Present? && q.frame == p.frame && q.frame !in vm.reserved && q.rw && q.cow {
      OnlyRef(vm, j, k);
    }
  }

  // ---- taking and giving back pages for the kernel's own use ----

  /** A page the kernel has just taken: nobody else refers to it. */
  ghost predicate Fresh(vm: Vm, f: nat) {
    f !in vm.reserved && Cnt(vm.held, f) == 1 && Cnt(vm.memMap, f) == 1 && f in vm.contents
  }

  lemma FreshUnnamed(vm: Vm, f: nat, k: Key)
    requires Inv(vm) && Fresh(vm, f) && k in vm.ptes
    ensures !Names(vm.ptes[k], f)
  {
    assert CountOK(vm, f);
    if Names(vm.ptes[k], f) { SubsetSize({k}, Refs(vm.ptes, f)); }
  }

  /** __get_free_page (mm/swap.c:550-602) takes a page that nobody refers to. */
  function TakePage(vm: Vm, f: nat, c: Page): Vm
    requires f !in vm.reserved && Cnt(vm.memMap, f) == 0
  {
    vm.(memMap := vm.memMap[f := 1], held := vm.held[f := 1], contents := vm.contents[f := c])
  }

  lemma TakeOK(vm: Vm, f: nat, c: Page)
    requires Inv(vm) && f !in vm.reserved && Cnt(vm.memMap, f) == 0
    ensures Inv(TakePage(vm, f, c)) && Fresh(TakePage(vm, f, c), f)
    ensures forall j :: View(TakePage(vm, f, c), j) == View(vm, j)
  {
    var vm' := TakePage(vm, f, c);
    forall g
      ensures CountOK(vm', g)
    {
      assert CountOK(vm, g);
    }
    forall s ensures SlotOK(vm', s) { assert SlotOK(vm, s); }
    forall j | j in vm.ptes
      ensures EntryOK(vm', j) && !Names(vm.ptes[j], f)
    {
      assert EntryOK(vm, j);
      if Names(vm.ptes[j], f) { Unreferenced(vm, j, f); }
    }
    forall i, j | i in vm'.ptes && j in vm'.ptes ensures PairOK(vm', i, j) { assert PairOK(vm, i, j); }
  }

  /** The kernel gives up a page it took. */
  function GivePage(vm: Vm, f: nat): Vm
    requires Cnt(vm.held, f) >= 1
  {
    FreePage(vm.(held := vm.held[f := Cnt(vm.held, f) - 1]), f)
  }

  lemma GiveOK(vm: Vm, f: nat)
    requires Inv(vm) && Fresh(vm, f)
    ensures Inv(GivePage(vm, f))
    ensures forall j :: View(GivePage(vm, f), j) == View(vm, j)
  {
    var vm' := GivePage(vm, f);
    forall g ensures CountOK(vm', g) { assert CountOK(vm, g); }
    forall s ensures SlotOK(vm', s) { assert SlotOK(vm, s); }
    forall j | j in vm.ptes
      ensures EntryOK(vm', j)
    {
      assert EntryOK(vm, j);
      FreshUnnamed(vm, f, j);
    }
    forall i, j | i in vm'.ptes && j in vm'.ptes ensures PairOK(vm', i, j) { assert PairOK(vm, i, j); }
  }
}
