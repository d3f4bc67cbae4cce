/** The loops over whole address spaces: fork, exit, unmapping and mapping zeros (mm/memory.c:154-377),
    and the search for a swap slot (mm/swap.c:102-191). */
module VmMemory {
  import opened Vm
  import opened VmOps
  import opened VmCow
  import opened VmSwap

  const PTRS_PER_PAGE := 1024

  /** The child's first n pages are copied; the rest are still to do. */
  ghost predicate Forking(vm0: Vm, vm: Vm, parent: nat, child: nat, n: nat) {
    && Inv(vm)
    && (forall j: Key :: j.0 != child ==> View(vm, j) == View(vm0, j))
    && (forall v: nat :: v < n ==> View(vm, (child, v)) == View(vm0, (parent, v)))
    && (forall v: nat :: v >= n ==> (child, v) !in vm.ptes)
    && (forall v: nat {:trigger SameBase(vm, (parent, v), (child, v))} :: SameBase(vm, (parent, v), (child, v)))
    && (forall j: Key :: j.0 != child ==> (j in vm.ptes <==> j in vm0.ptes))
  }

  lemma CopyShape(vm: Vm, parent: nat, child: nat, v: nat)
    ensures CopyPte(vm, parent, child, v).base == vm.base
    ensures forall j: Key {:trigger j in CopyPte(vm, parent, child, v).ptes} :: j != (child, v) ==>
      (j in CopyPte(vm, parent, child, v).ptes <==> j in vm.ptes)
  {
    assert CopyPte(vm, parent, child, v).base == vm.base;
    hide CopyPte;
    forall j: Key | j != (child, v)
      ensures j in CopyPte(vm, parent, child, v).ptes <==> j in vm.ptes
    {
      CopyShapeAt(vm, parent, child, v, j);
    }
  }

  lemma CopyShapeAt(vm: Vm, parent: nat, child: nat, v: nat, j: Key)
    requires j != (child, v)
    ensures j in CopyPte(vm, parent, child, v).ptes <==> j in vm.ptes
  {
    if (parent, v) in vm.ptes {
      match vm.ptes[(parent, v)] {
        case Swapped(s) =>
        case Present(f, _, _, _, _) =>
          if f in vm.reserved { } else { }
      }
    }
  }

  lemma ForkOne(vm0: Vm, vm: Vm, parent: nat, child: nat, n: nat)
    requires Forking(vm0, vm, parent, child, n) && parent != child
    ensures Forking(vm0, CopyPte(vm, parent, child, n), parent, child, n + 1)
  {
    hide Inv, View, CopyPte;
    var vm' := CopyPte(vm, parent, child, n);
    assert SameBase(vm, (parent, n), (child, n));
    CopyOK(vm, parent, child, n);
    CopyShape(vm, parent, child, n);
    forall v: nat ensures SameBase(vm', (parent, v), (child, v)) { assert SameBase(vm, (parent, v), (child, v)); }
  }

  /** Pages the parent has no entry for need no copying. */
  lemma ForkNone(vm0: Vm, vm: Vm, parent: nat, child: nat, n: nat, m: nat)
    requires Forking(vm0, vm, parent, child, n) && n <= m && parent != child
    requires forall v: nat :: n <= v < m ==> (parent, v) !in vm0.ptes
    ensures Forking(vm0, vm, parent, child, m)
  {
    hide Inv;
    forall v: nat | n <= v < m
      ensures View(vm, (child, v)) == View(vm0, (parent, v))
    {
      assert SameBase(vm, (parent, v), (child, v));
      assert View(vm, (parent, v)) == View(vm0, (parent, v));
    }
  }

  /** How many of the first n directory entries have a page table. */
  ghost function TablesBelow(tables: set<nat>, n: nat): nat {
    |set d | d in tables && d < n|
  }

  lemma NoTables(tables: set<nat>)
    ensures TablesBelow(tables, 0) == 0
  {
  }

  lemma TablesNext(tables: set<nat>, n: nat)
    ensures TablesBelow(tables, n + 1) == TablesBelow(tables, n) + if n in tables then 1 else 0
  {
    var a, b := set d | d in tables && d < n, set d | d in tables && d < n + 1;
    assert b == if n in tables then a + {n} else a;
  }

  lemma {:induction false} TablesMore(tables: set<nat>, n: nat, m: nat)
    requires n <= m
    ensures TablesBelow(tables, n) <= TablesBelow(tables, m)
    decreases m
  {
    hide TablesBelow;
    if n < m {
      TablesMore(tables, n, m - 1);
      TablesNext(tables, m - 1);
    }
  }

  lemma NoChild(vm: Vm, child: nat)
    requires forall k: Key :: k in vm.ptes || k in vm.base ==> k.0 != child
    ensures forall v: nat :: (child, v) !in vm.ptes && View(vm, (child, v)) == Nothing
  {
  }

  class Memory {
    var vm: Vm

    /** copy_page_tables (mm/memory.c:206-263): the parent has page tables for the directory entries in
        `tables`, and `pages` pages can be had for the child's directory and tables.  The child reads what the
        parent reads; if a page cannot be had, the child is taken apart again.  Nobody else notices. */
    method Fork(parent: nat, child: nat, dirs: nat, tables: set<nat>, pages: nat) returns (ok: bool)
      requires Inv(vm) && parent != child && forall k: Key :: k in vm.ptes || k in vm.base ==> k.0 != child
      requires forall v: nat :: (parent, v) in vm.ptes ==> v / PTRS_PER_PAGE < dirs && v / PTRS_PER_PAGE in tables
      modifies this
      ensures Inv(vm)
      ensures forall j: Key :: j.0 != child ==> View(vm, j) == View(old(vm), j)
      ensures ok ==> forall v: nat :: View(vm, (child, v)) == View(old(vm), (parent, v))
      ensures !ok ==> forall v: nat :: (child, v) !in vm.ptes && View(vm, (child, v)) == Nothing
      ensures ok <==> pages >= 1 + TablesBelow(tables, dirs)
    {
      hide Inv, View, CopyPte, Forking, SameBase, TablesBelow;
      ghost var vm0 := vm;
      if pages == 0 {
        NoChild(vm, child);
        return false;
      }
      StartFork(vm, parent, child);
      vm := DupBase(vm, parent, child);
      var left := pages - 1;
      var i := 0;
      NoTables(tables);
      while i < dirs
        invariant i <= dirs && left >= 0 && left + 1 + TablesBelow(tables, i) == pages
        invariant Forking(vm0, vm, parent, child, i * PTRS_PER_PAGE)
      {
        TablesNext(tables, i);
        if i in tables {
          if left == 0 {
            TablesMore(tables, i + 1, dirs);
            UpTo(vm0, vm, parent, child, i * PTRS_PER_PAGE);
            FreePageTables(child, i * PTRS_PER_PAGE);
            return false;
          }
          left := left - 1;
          var j := 0;
          while j < PTRS_PER_PAGE
            invariant j <= PTRS_PER_PAGE
            invariant Forking(vm0, vm, parent, child, i * PTRS_PER_PAGE + j)
          {
            ForkOne(vm0, vm, parent, child, i * PTRS_PER_PAGE + j);
            vm := CopyPte(vm, parent, child, i * PTRS_PER_PAGE + j);
            j := j + 1;
          }
        } else {
          NoTable(vm0, parent, i, tables, dirs);
          ForkNone(vm0, vm, parent, child, i * PTRS_PER_PAGE, (i + 1) * PTRS_PER_PAGE);
        }
        i := i + 1;
      }
      Beyond(vm0, vm, parent, child, dirs, tables);
      return true;
    }

    /** free_page_tables (mm/memory.c:154-183) for a task whose entries lie below n: its whole address
        space goes. */
    method FreePageTables(task: nat, n: nat)
      requires Inv(vm) && forall v: nat :: v >= n ==> (task, v) !in vm.ptes
      modifies this
      ensures Inv(vm)
      ensures forall j: Key :: j.0 != task ==> View(vm, j) == View(old(vm), j) && (j in vm.ptes <==> j in old(vm).ptes)
      ensures forall v: nat :: (task, v) !in vm.ptes && View(vm, (task, v)) == Nothing
    {
      hide Inv, View, DropPte;
      ghost var vm0 := vm;
      var v := 0;
      while v < n
        invariant v <= n && Clearing(vm0, vm, task, v, n)
      {
        hide Clearing;
        ClearOne(vm0, vm, task, v, n);
        vm := DropPte(vm, (task, v));
        v := v + 1;
      }
      ClearEnd(vm0, vm, task, n);
      vm := vm.(base := map k: Key | k in vm.base && k.0 != task :: vm.base[k]);
    }

    /** unmap_page_range (mm/memory.c:269-319) over n pages. */
    method UnmapRange(task: nat, from: nat, n: nat)
      requires Inv(vm)
      modifies this
      ensures Inv(vm)
      ensures forall j: Key :: View(vm, j) == if j.0 == task && from <= j.1 < from + n then Nothing
        else View(old(vm), j)
    {
      hide Inv, View, Unmap;
      ghost var vm0 := vm;
      var i := 0;
      while i < n
        invariant i <= n && Inv(vm)
        invariant forall j: Key :: View(vm, j) == if j.0 == task && from <= j.1 < from + i then Nothing
          else View(vm0, j)
      {
        UnmapOK(vm, (task, from + i));
        vm := Unmap(vm, (task, from + i));
        i := i + 1;
      }
    }

    /** The inner loop of zeromap_page_range: k pages from v on. */
    method ZeroTable(task: nat, v: nat, k: nat, cow: bool)
      requires Inv(vm)
      modifies this
      ensures Inv(vm)
      ensures forall j: Key ::
        View(vm, j) == if j.0 == task && v <= j.1 < v + k then Just(0) else View(old(vm), j)
    {
      hide Inv, View, ZeroMap;
      ghost var vm0 := vm;
      var i := 0;
      while i < k
        invariant i <= k && Inv(vm)
        invariant forall j: Key ::
          View(vm, j) == if j.0 == task && v <= j.1 < v + i then Just(0) else View(vm0, j)
      {
        ZeroMapOK(vm, (task, v + i), cow);
        vm := ZeroMap(vm, (task, v + i), cow);
        i := i + 1;
      }
    }

    /** zeromap_page_range (mm/memory.c:321-377) over n pages of a task that has page tables for the directory
        entries `tables`, when `spare` pages can be had for more: it goes as far as they reach. */
    method ZeroMapRange(task: nat, from: nat, n: nat, cow: bool, tables: set<nat>, spare: nat)
      returns (ok: bool, tables': set<nat>, spare': nat)
      requires Inv(vm)
      modifies this
      ensures Inv(vm) && (ok <==> Missing(tables, from, n) <= spare)
      ensures tables' == tables + DirsOf(from, Served(tables, spare, from, n))
      ensures spare' + |tables' - tables| == spare
      ensures forall j: Key ::
        View(vm, j) == if j.0 == task && from <= j.1 < from + Served(tables, spare, from, n) then Just(0)
          else View(old(vm), j)
    {
      hide Inv, View, Served, DirsOf, Dir, Chunk, Missing;
      ghost var vm0 := vm;
      var i := 0;
      tables', spare' := tables, spare;
      ServedAll(tables, spare, from, n);
      NoDirs(from);
      assert tables - tables == {};
      while i < n
        invariant i <= n && Inv(vm)
        invariant Served(tables, spare, from, n) == i + Served(tables', spare', from + i, n - i)
        invariant tables' == tables + DirsOf(from, i) && spare' + |tables' - tables| == spare
        invariant forall j: Key :: View(vm, j) == if j.0 == task && from <= j.1 < from + i then Just(0)
          else View(vm0, j)
        decreases n - i
      {
        var v := from + i;
        ServedNext(tables', spare', v, n - i);
        if Dir(v) !in tables' {
          if spare' == 0 {
            return false, tables', spare';
          }
          OneMore(tables, tables', Dir(v));
          tables', spare' := tables' + {Dir(v)}, spare' - 1;
        }
        var pcnt := Chunk(v, n - i);
        ServedChunk(tables', spare', v, pcnt, n - i);
        DirsChunk(from, i, pcnt, n - i);
        ZeroTable(task, v, pcnt, cow);
        i := i + pcnt;
      }
      ServedNone(tables', spare', from + n);
      return true, tables', spare';
    }
  }

  /** The pages from v on that are in the same page table, of n. */
  function Chunk(v: nat, n: nat): (k: nat)
    requires n > 0
    ensures 0 < k <= n
  {
    var k := PTRS_PER_PAGE - v % PTRS_PER_PAGE;
    if k > n then n else k
  }

  lemma ChunkDir(v: nat, n: nat, x: nat)
    requires n > 0 && v <= x < v + Chunk(v, n)
    ensures Dir(x) == Dir(v)
  {
  }

  lemma {:induction false} ServedChunk(tables: set<nat>, spare: nat, v: nat, k: nat, n: nat)
    requires k <= n && Dir(v) in tables && (n > 0 ==> k <= Chunk(v, n))
    ensures Served(tables, spare, v, n) == k + Served(tables, spare, v + k, n - k)
    decreases k
  {
    hide Dir, Chunk;
    if k > 0 {
      ServedChunk(tables, spare, v, k - 1, n);
      ChunkDir(v, n, v + k - 1);
      assert v + (k - 1) + 1 == v + k;
    }
  }

  lemma DirsChunk(v: nat, i: nat, k: nat, n: nat)
    requires n > 0 && k == Chunk(v + i, n)
    ensures DirsOf(v, i + k) == DirsOf(v, i) + {Dir(v + i)}
  {
    hide Dir, Chunk;
    forall x | v + i <= x < v + i + k ensures Dir(x) == Dir(v + i) { ChunkDir(v + i, n, x); }
  }

  /** The directory entry of a page. */
  function Dir(v: nat): nat { v / PTRS_PER_PAGE }

  ghost function DirsOf(v: nat, n: nat): set<nat> {
    set x | v <= x < v + n :: Dir(x)
  }

  /** How many of n pages from v on can be reached with these page tables and that many more. */
  ghost function Served(tables: set<nat>, spare: nat, v: nat, n: nat): (r: nat)
    ensures r <= n
    decreases n
  {
    if n == 0 then 0
    else if Dir(v) in tables then 1 + Served(tables, spare, v + 1, n - 1)
    else if spare == 0 then 0
    else 1 + Served(tables + {Dir(v)}, spare - 1, v + 1, n - 1)
  }

  lemma ServedNext(tables: set<nat>, spare: nat, v: nat, n: nat)
    requires n > 0
    ensures Dir(v) in tables ==> Served(tables, spare, v, n) == 1 + Served(tables, spare, v + 1, n - 1)
    ensures Dir(v) !in tables ==>
      Served(tables, spare, v, n) == if spare == 0 then 0 else Served(tables + {Dir(v)}, spare - 1, v, n)
  {
  }

  lemma ServedNone(tables: set<nat>, spare: nat, v: nat)
    ensures Served(tables, spare, v, 0) == 0
  {
  }

  lemma NoDirs(v: nat)
    ensures DirsOf(v, 0) == {}
  {
  }

  lemma OneMore(tables: set<nat>, more: set<nat>, d: nat)
    requires tables <= more && d !in more
    ensures |(more + {d}) - tables| == |more - tables| + 1
  {
    assert (more + {d}) - tables == (more - tables) + {d};
  }

  lemma DirsFirst(v: nat, n: nat)
    requires n > 0
    ensures DirsOf(v, n) == DirsOf(v + 1, n - 1) + {Dir(v)}
  {
    hide Dir;
  }

  lemma MissingMore(dirs: set<nat>, tables: set<nat>, d: nat)
    ensures |dirs + {d} - tables| == |dirs - (tables + {d})| + if d in tables then 0 else 1
    ensures d in tables ==> tables + {d} == tables
  {
    var rest := dirs - (tables + {d});
    if d in tables {
      assert dirs + {d} - tables == rest;
    } else {
      assert dirs + {d} - tables == rest + {d};
    }
  }

  /** The page tables that are missing for these pages. */
  ghost function Missing(tables: set<nat>, v: nat, n: nat): nat {
    |DirsOf(v, n) - tables|
  }

  lemma MissingNone(tables: set<nat>, v: nat)
    ensures Missing(tables, v, 0) == 0
  {
    NoDirs(v);
    hide DirsOf;
    assert {} - tables == {};
  }

  lemma MissingNext(tables: set<nat>, v: nat, n: nat)
    requires n > 0
    ensures Dir(v) in tables ==> Missing(tables, v, n) == Missing(tables, v + 1, n - 1)
    ensures Dir(v) !in tables ==> Missing(tables, v, n) == 1 + Missing(tables + {Dir(v)}, v + 1, n - 1)
  {
    DirsFirst(v, n);
    hide DirsOf, Dir;
    MissingMore(DirsOf(v + 1, n - 1), tables, Dir(v));
  }

  /** All pages are reached exactly if there are enough pages for the missing tables. */
  lemma {:induction false} ServedAll(tables: set<nat>, spare: nat, v: nat, n: nat)
    ensures Served(tables, spare, v, n) == n <==> Missing(tables, v, n) <= spare
    decreases n
  {
    hide Dir, Missing;
    if n == 0 {
      MissingNone(tables, v);
    } else {
      MissingNext(tables, v, n);
      if Dir(v) in tables {
        ServedAll(tables, spare, v + 1, n - 1);
      } else if spare > 0 {
        ServedAll(tables + {Dir(v)}, spare - 1, v + 1, n - 1);
      }
    }
  }

  lemma StartFork(vm: Vm, parent: nat, child: nat)
    requires Inv(vm) && parent != child && forall k: Key :: k in vm.ptes || k in vm.base ==> k.0 != child
    ensures Forking(vm, DupBase(vm, parent, child), parent, child, 0)
  {
    DupBaseOK(vm, parent, child);
  }

  lemma UpTo(vm0: Vm, vm: Vm, parent: nat, child: nat, n: nat)
    requires Forking(vm0, vm, parent, child, n)
    ensures Inv(vm) && forall v: nat :: v >= n ==> (child, v) !in vm.ptes
    ensures forall j: Key :: j.0 != child ==> View(vm, j) == View(vm0, j)
  {
  }

  lemma NoTable(vm: Vm, parent: nat, i: nat, tables: set<nat>, dirs: nat)
    requires forall v: nat :: (parent, v) in vm.ptes ==> v / PTRS_PER_PAGE < dirs && v / PTRS_PER_PAGE in tables
    requires i !in tables
    ensures forall v: nat :: i * PTRS_PER_PAGE <= v < (i + 1) * PTRS_PER_PAGE ==> (parent, v) !in vm.ptes
  {
    forall v: nat | i * PTRS_PER_PAGE <= v < (i + 1) * PTRS_PER_PAGE
      ensures (parent, v) !in vm.ptes
    {
      assert v / PTRS_PER_PAGE == i;
    }
  }

  lemma Beyond(vm0: Vm, vm: Vm, parent: nat, child: nat, dirs: nat, tables: set<nat>)
    requires Forking(vm0, vm, parent, child, dirs * PTRS_PER_PAGE) && parent != child
    requires forall v: nat :: (parent, v) in vm0.ptes ==> v / PTRS_PER_PAGE < dirs && v / PTRS_PER_PAGE in tables
    ensures Inv(vm) && forall v: nat :: View(vm, (child, v)) == View(vm0, (parent, v))
    ensures forall j: Key :: j.0 != child ==> View(vm, j) == View(vm0, j)
  {
    hide Inv, View;
    forall v: nat
      ensures View(vm, (child, v)) == View(vm0, (parent, v))
    {
      if v >= dirs * PTRS_PER_PAGE {
        forall x: nat | dirs * PTRS_PER_PAGE <= x < v + 1
          ensures (parent, x) !in vm0.ptes
        {
          assert x / PTRS_PER_PAGE >= dirs;
        }
        ForkNone(vm0, vm, parent, child, dirs * PTRS_PER_PAGE, v + 1);
      }
    }
  }

  ghost predicate Clearing(vm0: Vm, vm: Vm, task: nat, v: nat, n: nat) {
    && Inv(vm)
    && (forall j: Key :: j.0 != task ==> View(vm, j) == View(vm0, j) && (j in vm.ptes <==> j in vm0.ptes))
    && (forall x: nat :: x < v || x >= n ==> (task, x) !in vm.ptes)
  }

  lemma ClearOne(vm0: Vm, vm: Vm, task: nat, v: nat, n: nat)
    requires Clearing(vm0, vm, task, v, n)
    ensures Clearing(vm0, DropPte(vm, (task, v)), task, v + 1, n)
  {
    hide Inv, View;
    DropOK(vm, (task, v));
  }

  lemma ClearEnd(vm0: Vm, vm: Vm, task: nat, n: nat)
    requires Clearing(vm0, vm, task, n, n)
    ensures var vm' := vm.(base := map k: Key | k in vm.base && k.0 != task :: vm.base[k]);
            && Inv(vm') && (forall j: Key :: j.0 != task ==>
            View(vm', j) == View(vm0, j) && (j in vm'.ptes <==> j in vm0.ptes))
            && forall v: nat :: (task, v) !in vm'.ptes && View(vm', (task, v)) == Nothing
  {
    var vm' := vm.(base := map k: Key | k in vm.base && k.0 != task :: vm.base[k]);
    forall v: nat ensures (task, v) !in vm'.ptes { assert v < n || v >= n; }
    forall f ensures CountOK(vm', f) { assert CountOK(vm, f); }
    forall s ensures SlotOK(vm', s) { assert SlotOK(vm, s); }
    forall j | j in vm.ptes ensures EntryOK(vm', j) { assert EntryOK(vm, j); assert j.0 == task ==> j == (task, j.1); }
    forall i, j | i in vm'.ptes && j in vm'.ptes ensures PairOK(vm', i, j) { assert PairOK(vm, i, j); }
  }
}
