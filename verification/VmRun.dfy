/** Runs of memory operations by any tasks in any order: the counts stay exact, and a private page
    keeps its value until its own task writes it or gives it up. */
module VmRun {
  import opened Vm
  import opened VmOps
  import opened VmCow
  import opened VmSwap

  datatype Op =
    | TakeOp(f: nat, c: Page)
    | GiveOp(f: nat)
    | WriteOp(k: Key, c: Page)
    | FaultOp(k: Key, user: bool)
    | FaultPageOp(k: Key, n: nat)
    | ForkOp(parent: nat, child: nat, v: nat)
    | UnmapOp(k: Key)
    | ZeroOp(k: Key, cow: bool)
    | OutOp(k: Key, recent: bool, slot: Slotted)
    | InOp(k: Key, s: nat, n: nat)
    | LoadOp(k: Key, n: nat, rw: bool)
    | ShareOp(t: nat, p: nat, v: nat, write: bool, spare: bool, n: nat)

  /** When an operation can happen: pages that are taken are free, pages that are handed over were
      taken, stores go through writable entries, a slot from get_swap_page is free, and sharing is
      between tasks that load the page from the same place. */
  ghost predicate Enabled(vm: Vm, op: Op) {
    match op
    case TakeOp(f, _) => f !in vm.reserved && Cnt(vm.memMap, f) == 0
    case GiveOp(f) => Fresh(vm, f)
    case WriteOp(k, _) => k in vm.ptes && vm.ptes[k].Present? && vm.ptes[k].rw
    case FaultOp(_, _) => true
    case FaultPageOp(_, n) => Fresh(vm, n)
    case ForkOp(parent, child, v) => parent != child && (child, v) !in vm.ptes && SameBase(vm, (parent, v), (child, v))
    case UnmapOp(_) => true
    case ZeroOp(_, _) => true
    case OutOp(_, _, slot) => slot.Found? ==> Cnt(vm.swapMap, slot.s) == 0
    case InOp(_, _, n) => Fresh(vm, n)
    case LoadOp(k, n, _) => Fresh(vm, n) && k !in vm.ptes && k in vm.base
    case ShareOp(t, p, v, _, spare, n) =>
      t != p && (spare ==> Fresh(vm, n)) && (t, v) in vm.base && (p, v) in vm.base && vm.base[(t, v)] == vm.base[(p, v)]
      && Private(vm, (p, v))
  }

  ghost function Step(vm: Vm, op: Op): Vm
    requires Enabled(vm, op)
  {
    match op
    case TakeOp(f, c) => TakePage(vm, f, c)
    case GiveOp(f) => GivePage(vm, f)
    case WriteOp(k, c) => Store(vm, k, c)
    case FaultOp(k, user) => WpFault(vm, k, user).0
    case FaultPageOp(k, n) => WpCopy(vm, k, n)
    case ForkOp(parent, child, v) => CopyPte(vm, parent, child, v)
    case UnmapOp(k) => Unmap(vm, k)
    case ZeroOp(k, cow) => ZeroMap(vm, k, cow)
    case OutOp(k, recent, slot) => SwapOut(vm, k, recent, slot).0
    case InOp(k, s, n) => SwapIn(vm, k, s, n)
    case LoadOp(k, n, rw) => Load(vm, k, n, rw)
    case ShareOp(t, p, v, write, spare, n) => TryToShare(vm, t, p, v, write, spare, n).0
  }

  /** The operation writes, replaces or gives up page k. */
  predicate Targets(op: Op, k: Key) {
    match op
    case WriteOp(j, _) => j == k
    case ForkOp(_, child, v) => (child, v) == k
    case UnmapOp(j) => j == k
    case ZeroOp(j, _) => j == k
    case _ => false
  }

  lemma StepInv(vm: Vm, op: Op)
    requires Inv(vm) && Enabled(vm, op)
    ensures Inv(Step(vm, op))
  {
    hide Inv;
    match op
    case TakeOp(f, c) => TakeOK(vm, f, c);
    case GiveOp(f) => GiveOK(vm, f);
    case WriteOp(k, c) => StoreOK(vm, k, c);
    case FaultOp(k, user) => WpOK(vm, k, user);
    case FaultPageOp(k, n) => WpCopyOK(vm, k, n);
    case ForkOp(parent, child, v) => CopyOK(vm, parent, child, v);
    case UnmapOp(k) => UnmapOK(vm, k);
    case ZeroOp(k, cow) => ZeroMapOK(vm, k, cow);
    case OutOp(k, recent, slot) => SwapOutOK(vm, k, recent, slot);
    case InOp(k, s, n) => SwapInOK(vm, k, s, n);
    case LoadOp(k, n, rw) => LoadOK(vm, k, n, rw);
    case ShareOp(t, p, v, write, spare, n) => ShareOK(vm, t, p, v, write, spare, n);
  }

  /** No step but its own task's changes what is read at a private page. */
  lemma StepView(vm: Vm, op: Op, k: Key)
    requires Inv(vm) && Enabled(vm, op) && Private(vm, k) && !Targets(op, k)
    ensures View(Step(vm, op), k) == View(vm, k)
  {
    hide Inv;
    match op
    case TakeOp(f, c) => TakeOK(vm, f, c);
    case GiveOp(f) => GiveOK(vm, f);
    case WriteOp(j, c) => StoreOK(vm, j, c);
    case FaultOp(j, user) => WpOK(vm, j, user);
    case FaultPageOp(j, n) => WpCopyOK(vm, j, n);
    case ForkOp(parent, child, v) => CopyOK(vm, parent, child, v);
    case UnmapOp(j) => UnmapOK(vm, j);
    case ZeroOp(j, cow) => ZeroMapOK(vm, j, cow);
    case OutOp(j, recent, slot) => SwapOutOK(vm, j, recent, slot);
    case InOp(j, s, n) => SwapInOK(vm, j, s, n);
    case LoadOp(j, n, rw) => LoadOK(vm, j, n, rw);
    case ShareOp(t, p, v, write, spare, n) => ShareOK(vm, t, p, v, write, spare, n);
  }

  /** A private page stays private until it is replaced. */
  lemma StepPrivate(vm: Vm, op: Op, k: Key)
    requires Enabled(vm, op) && Private(vm, k) && !Targets(op, k)
    ensures Private(Step(vm, op), k)
  {
    hide Private, View;
    match op
    case FaultOp(j, user) => PrivateFault(vm, j, user, k);
    case FaultPageOp(j, n) => PrivateCopy(vm, j, n, k);
    case OutOp(j, recent, slot) => PrivateOut(vm, j, recent, slot, k);
    case ForkOp(parent, child, v) => PrivateFork(vm, parent, child, v, k);
    case InOp(j, s, n) => PrivateIn(vm, j, s, n, k);
    case LoadOp(j, n, rw) => PrivateLoad(vm, j, n, rw, k);
    case ShareOp(t, p, v, write, spare, n) => PrivateShare(vm, t, p, v, write, spare, n, k);
    case TakeOp(_, _) => PrivateElse(vm, op, k);
    case GiveOp(_) => PrivateElse(vm, op, k);
    case WriteOp(_, _) => PrivateElse(vm, op, k);
    case UnmapOp(j) => PrivateDrop(vm, j, k);
    case ZeroOp(j, _) => PrivateDrop(vm, j, k);
  }

  lemma PrivateElse(vm: Vm, op: Op, k: Key)
    requires Enabled(vm, op) && Private(vm, k) && !Targets(op, k)
    requires op.TakeOp? || op.GiveOp? || op.WriteOp?
    ensures Private(Step(vm, op), k)
  {
  }

  lemma PrivateDrop(vm: Vm, j: Key, k: Key)
    requires Private(vm, k) && j != k
    ensures Private(Unmap(vm, j), k) && forall cow :: Private(ZeroMap(vm, j, cow), k)
  {
    assert k in DropPte(vm, j).ptes ==> k in vm.ptes && DropPte(vm, j).ptes[k] == vm.ptes[k];
    hide DropPte;
  }

  lemma PrivateIn(vm: Vm, j: Key, s: nat, n: nat, k: Key)
    requires Cnt(vm.held, n) >= 1 && Private(vm, k)
    ensures Private(SwapIn(vm, j, s, n), k)
  {
  }

  lemma PrivateLoad(vm: Vm, j: Key, n: nat, rw: bool, k: Key)
    requires Cnt(vm.held, n) >= 1 && j in vm.base && Private(vm, k)
    ensures Private(Load(vm, j, n, rw), k)
  {
  }

  lemma PrivateFault(vm: Vm, j: Key, user: bool, k: Key)
    requires Private(vm, k)
    ensures Private(WpFault(vm, j, user).0, k)
  {
  }

  lemma PrivateCopy(vm: Vm, j: Key, n: nat, k: Key)
    requires Cnt(vm.held, n) >= 1 && Private(vm, k)
    ensures Private(WpCopy(vm, j, n), k)
  {
  }

  lemma PrivateOut(vm: Vm, j: Key, recent: bool, slot: Slotted, k: Key)
    requires Private(vm, k)
    ensures Private(SwapOut(vm, j, recent, slot).0, k)
  {
  }

  lemma PrivateFork(vm: Vm, parent: nat, child: nat, v: nat, k: Key)
    requires Private(vm, k) && k != (child, v)
    ensures Private(CopyPte(vm, parent, child, v), k)
  {
  }

  lemma PrivateShare(vm: Vm, t: nat, p: nat, v: nat, write: bool, spare: bool, n: nat, k: Key)
    requires (spare ==> Cnt(vm.held, n) >= 1) && Private(vm, k) && Private(vm, (p, v))
    ensures Private(TryToShare(vm, t, p, v, write, spare, n).0, k)
  {
  }

  /** A sequence of operations each of which can happen when its turn comes. */
  ghost predicate Runs(vm: Vm, ops: seq<Op>)
    decreases |ops|
  {
    ops == [] || (Enabled(vm, ops[0]) && Runs(Step(vm, ops[0]), ops[1..]))
  }

  ghost function Run(vm: Vm, ops: seq<Op>): Vm
    requires Runs(vm, ops)
    decreases |ops|
  {
    if ops == [] then vm else Run(Step(vm, ops[0]), ops[1..])
  }

  /** Before the first task runs: nothing is mapped, and the frames that are not reserved are free (mem_init). */
  ghost predicate Booted(vm: Vm) {
    && vm.ptes == map[] && vm.held == map[] && (forall s :: Cnt(vm.swapMap, s) == 0)
    && (forall f :: f !in vm.reserved ==> Cnt(vm.memMap, f) == 0)
    && vm.zero in vm.reserved && vm.zero in vm.contents && vm.contents[vm.zero] == 0
  }

  lemma BootedInv(vm: Vm)
    requires Booted(vm)
    ensures Inv(vm)
  {
    assert forall f :: Refs(vm.ptes, f) == {} && SlotRefs(vm.ptes, f) == {};
  }

  /** Over every run: mem_map and swap_map are exact, and writable private pages have one reference. */
  lemma {:induction false} RunInv(vm: Vm, ops: seq<Op>)
    requires Inv(vm) && Runs(vm, ops)
    ensures Inv(Run(vm, ops))
    decreases |ops|
  {
    hide Inv, Enabled, Step;
    if ops != [] {
      StepInv(vm, ops[0]);
      RunInv(Step(vm, ops[0]), ops[1..]);
    }
  }

  /** Over every run in which task k.0 neither writes nor replaces page k, it reads the same. */
  lemma {:induction false} RunView(vm: Vm, ops: seq<Op>, k: Key)
    requires Inv(vm) && Runs(vm, ops) && Private(vm, k)
    requires forall i :: 0 <= i < |ops| ==> !Targets(ops[i], k)
    ensures View(Run(vm, ops), k) == View(vm, k)
    decreases |ops|
  {
    hide Inv, Enabled, Step, Private, View, Targets;
    if ops != [] {
      StepInv(vm, ops[0]);
      StepView(vm, ops[0], k);
      StepPrivate(vm, ops[0], k);
      assert forall i :: 0 <= i < |ops[1..]| ==> ops[1..][i] == ops[i + 1];
      RunView(Step(vm, ops[0]), ops[1..], k);
    }
  }

  lemma BothPrivate(vm: Vm, parent: nat, child: nat, v: nat)
    requires (child, v) !in vm.ptes && Private(vm, (parent, v))
    ensures Private(CopyPte(vm, parent, child, v), (child, v)) && Private(CopyPte(vm, parent, child, v), (parent, v))
  {
  }

  /** After a fork, whatever anyone does, parent and child both read what the parent read before,
      until they write themselves. */
  lemma ForkIsolates(vm: Vm, parent: nat, child: nat, v: nat, ops: seq<Op>)
    requires Inv(vm) && Enabled(vm, ForkOp(parent, child, v)) && Private(vm, (parent, v))
    requires Runs(Step(vm, ForkOp(parent, child, v)), ops)
    ensures (forall i :: 0 <= i < |ops| ==> !Targets(ops[i], (child, v))) ==>
      View(Run(Step(vm, ForkOp(parent, child, v)), ops), (child, v)) == View(vm, (parent, v))
    ensures (forall i :: 0 <= i < |ops| ==> !Targets(ops[i], (parent, v))) ==>
      View(Run(Step(vm, ForkOp(parent, child, v)), ops), (parent, v)) == View(vm, (parent, v))
  {
    hide Inv, Run, Runs, View, Private, CopyPte;
    var vm' := CopyPte(vm, parent, child, v);
    CopyOK(vm, parent, child, v);
    BothPrivate(vm, parent, child, v);
    if forall i :: 0 <= i < |ops| ==> !Targets(ops[i], (child, v)) { RunView(vm', ops, (child, v)); }
    if forall i :: 0 <= i < |ops| ==> !Targets(ops[i], (parent, v)) { RunView(vm', ops, (parent, v)); }
  }

  /** A task reads its own last write, whatever happens in between. */
  lemma ReadsLastWrite(vm: Vm, k: Key, c: Page, ops: seq<Op>)
    requires Inv(vm) && Enabled(vm, WriteOp(k, c)) && vm.ptes[k].cow
    requires Runs(Step(vm, WriteOp(k, c)), ops) && forall i :: 0 <= i < |ops| ==> !Targets(ops[i], k)
    ensures View(Run(Step(vm, WriteOp(k, c)), ops), k) == Just(c)
  {
    StoreOK(vm, k, c);
    var vm' := Store(vm, k, c);
    assert Private(vm', k);
    hide Inv, Run, Runs;
    RunView(vm', ops, k);
  }
}
