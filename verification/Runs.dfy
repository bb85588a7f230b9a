/** Runs of the kernel with its processes, from boot on.

A run is a sequence of steps: at boot, processes are set up and the first is started; then the current process loads,
stores, traps into the kernel, or is interrupted. The results are about whole runs: what a process can load changes by
its own doing only.
 */
module Runs {
  import opened Paging
  import opened PageTables
  import opened Allocator
  import opened VmIters
  import opened Spaces
  import opened Accounts
  import opened FreePages
  import opened Forks
  import opened ForkCosts
  import opened PageAllocs
  import opened Setups
  import opened SetupPlans
  import opened UserMemory
  import opened Schedules

  /** What steps change. `current` is 0, a slot that is never used, until the first process is started. */
  datatype Snapshot = Snapshot(mem: Mem, refs: seq<nat>, ptable: seq<Proc>, current: nat)

  /** `regs` are the registers that the trap saves, if there is one. */
  datatype Step =
    | Setup(pid: nat, requests: seq<Request>, initial: Regs, entry: Regs)
    | Start
    | Load(va: nat, regs: Regs)
    | Store(va: nat, word: Word, regs: Regs)
    | Timer(regs: Regs)
    | SysGetPid(regs: Regs)
    | SysYield(regs: Regs)
    | SysFork(regs: Regs)
    | SysExit(regs: Regs)
    | SysPageAlloc(addr: nat, regs: Regs)
    | Unexpected                                  // the panic call, an unknown call, or another exception

  /** Every slot knows its own number. */
  ghost predicate Named(ptable: seq<Proc>) {
    forall i :: 0 <= i < |ptable| ==> ptable[i].pid == i
  }

  /** The kernel between two steps. The accounts are exact at least until the first process is started. */
  ghost predicate Steady(m: Machine, lay: Layout, kernelPt: nat, s: Snapshot) {
    && lay.Ok() && lay.procStart < lay.memVirtual && lay.console < m.npages
    && |s.ptable| == lay.nproc && Named(s.ptable) && s.current < |s.ptable|
    && Good(m, s.mem, s.refs, s.ptable, lay) && KernelTable(m, s.mem, kernelPt, lay)
    && (s.current == 0 ==> Exact(m, s.mem, s.refs, s.ptable, lay))
    && forall f :: 0 <= f < |s.mem| ==> |s.mem[f]| == ENTRIES
  }

  /** The pages that a setup maps for the user: those of the program, and the stack. */
  function Demanded(requests: seq<Request>, lay: Layout): seq<Request>
    requires lay.procStart < lay.memVirtual
  {
    requests + [Request(lay.memVirtual - 1, true)]
  }

  /** Setups and the start happen before anything runs; the other steps need a process that runs. */
  predicate Enabled(lay: Layout, s: Snapshot, step: Step) {
    match step
    case Setup(pid, requests, _, _) =>
      && s.current == 0 && 0 < pid < |s.ptable| && s.ptable[pid].state.Free?
      && forall i :: 0 <= i < |requests| ==> lay.procStart <= requests[i].page < lay.memVirtual
    case Start => s.current == 0
    case _ =>
      && s.current < |s.ptable| && s.ptable[s.current].state.Runnable?
      && (step.Load? || step.Store? ==> step.va < VA_END)
  }

  predicate InRange(lay: Layout, addr: nat) {
    lay.procStart * PAGESIZE <= addr < lay.memVirtual * PAGESIZE
  }

  /** The kernel panics: there is no first process, an address is not canonical, a page is asked for at an address
      that is none of a page, or the process asks for it. */
  ghost predicate Panics(m: Machine, lay: Layout, s: Snapshot, step: Step) {
    && Enabled(lay, s, step)
    && match step
       case Start => !IsRunnable(s.ptable, 1)
       case Load(va, _) => !Canonical(va)
       case Store(va, _, _) => !Canonical(va)
       case SysPageAlloc(addr, _) => InRange(lay, addr) && addr % PAGESIZE != 0 && !AllUsed(m, s.refs)
       case Unexpected => true
       case _ => false
  }

  /** The condition under which a page allocation keeps the accounts: nothing is mapped at the page yet, and enough
      pages are left for the missing tables. */
  ghost predicate CleanAlloc(m: Machine, mem: Mem, refs: seq<nat>, root: nat, page: nat) {
    PageAt(mem, root, page) == Unmapped && Enough(m, mem, refs, root, page)
  }

  ghost predicate Enough(m: Machine, mem: Mem, refs: seq<nat>, root: nat, page: nat) {
    |FreeSet(m, refs)| > FreshCursor(mem, root, page * PAGESIZE).level
  }

  /** The step is a page allocation that takes a page. */
  ghost predicate Allocates(m: Machine, lay: Layout, s: Snapshot, step: Step) {
    Enabled(lay, s, step) && step.SysPageAlloc? && InRange(lay, step.addr) && step.addr % PAGESIZE == 0
        && !AllUsed(m, s.refs)
  }

  /** The step loses a page: its count will never fall to zero again. */
  ghost predicate Leaks(m: Machine, lay: Layout, s: Snapshot, step: Step) {
    Allocates(m, lay, s, step) && !CleanAlloc(m, s.mem, s.refs, s.ptable[s.current].pagetable, step.addr / PAGESIZE)
  }

  /** The step is a setup that breaks the accounts, or even the invariant. */
  predicate Breaks(m: Machine, lay: Layout, kernelPt: nat, s: Snapshot, step: Step)
    requires lay.procStart < lay.memVirtual
  {
    && Enabled(lay, s, step) && step.Setup?
    && var free := |FreeSet(m, s.refs)|;
       free > 0 && !FullPlan(free, View(s.mem, kernelPt, lay.procStart), Demanded(step.requests, lay)).clean
  }

  /** The step is a fork that wraps the counter of a page that it shares. */
  ghost predicate Wraps(m: Machine, lay: Layout, s: Snapshot, step: Step) {
    && Enabled(lay, s, step) && step.SysFork? && (exists slot: nat :: LowestFree(s.ptable, slot))
    && ForkWraps(m, s.mem, s.refs, s.ptable[s.current].pagetable, lay)
  }

  // ---------------------------------------------------------------------------------------
  // The steps

  /** A trap saves the registers. */
  function Trapped(s: Snapshot, regs: Regs): Snapshot
    requires s.current < |s.ptable|
  {
    s.(ptable := s.ptable[s.current := s.ptable[s.current].(regs := regs)])
  }

  function WithState(s: Snapshot, state: ProcState): Snapshot
    requires s.current < |s.ptable|
  {
    s.(ptable := s.ptable[s.current := s.ptable[s.current].(state := state)])
  }

  /** `schedule`: the nearest runnable process is next. If there is none, the kernel searches for ever. */
  ghost predicate Rescheduled(s: Snapshot, s': Snapshot) {
    && s' == s.(current := s'.current)
    && if exists i: nat :: IsRunnable(s.ptable, i) then Picks(s.ptable, s.current, s'.current)
       else s'.current == s.current
  }

  /** A page fault: the process is broken, and another is run. */
  ghost predicate Faulted(s: Snapshot, regs: Regs, s': Snapshot)
    requires s.current < |s.ptable|
  {
    Rescheduled(WithState(Trapped(s, regs), Broken), s')
  }

  /** Only the table pointer of a free slot differs. */
  ghost predicate SlotUnused(ptable: seq<Proc>, ptable': seq<Proc>) {
    && |ptable'| == |ptable|
    && forall i :: 0 <= i < |ptable| ==>
         ptable'[i] == if ptable[i].state.Free? then ptable[i].(pagetable := ptable'[i].pagetable) else ptable[i]
  }

  /** The process table after a fork by `pid` into `slot`. */
  ghost predicate ForkedInto(ptable: seq<Proc>, ptable': seq<Proc>, pid: nat, slot: nat)
    requires pid < |ptable|
  {
    && |ptable'| == |ptable| && slot < |ptable| && slot != pid
    && ptable'[slot].pid == slot && ptable'[slot].state == Runnable
    && ptable'[slot].regs == ptable[pid].regs.(rax := 0)
    && ptable'[pid] == ptable[pid].(regs := ptable[pid].regs.(rax := slot))
    && forall i :: 0 <= i < |ptable| && i != slot && i != pid ==> ptable'[i] == ptable[i]
  }

  ghost predicate LowestFree(ptable: seq<Proc>, slot: nat) {
    && 1 <= slot < |ptable| && ptable[slot].state.Free?
    && forall i :: 1 <= i < slot ==> !ptable[i].state.Free?
  }

  /** A fork of the current process into `slot`. */
  ghost predicate ForkedTo(m: Machine, lay: Layout, s: Snapshot, s': Snapshot, slot: nat)
    requires s.current < |s.ptable|
  {
    && LowestFree(s.ptable, slot) && ForkedInto(s.ptable, s'.ptable, s.current, slot)
    && Raised(s.refs, s'.refs, Uses(s'.mem, s'.ptable[slot].pagetable, lay))
    && |FreeSet(m, s'.refs)| + ForkNeeds(s.mem, s.ptable[s.current].pagetable, lay) == |FreeSet(m, s.refs)|
    && CopiedEverywhere(s.mem, s.refs, s.ptable[s.current].pagetable, s'.mem, s'.ptable[slot].pagetable, lay)
  }

  ghost predicate Forked(m: Machine, lay: Layout, s: Snapshot, s': Snapshot)
    requires s.current < |s.ptable|
  {
    && s'.current == s.current && KeepsUsed(m, s.mem, s.refs, s'.mem)
    && Keeps(m, s.mem, s.refs, s.ptable, s'.mem, s'.refs, s'.ptable, lay)
    && if (exists slot: nat :: LowestFree(s.ptable, slot))
          && |FreeSet(m, s.refs)| >= ForkNeeds(s.mem, s.ptable[s.current].pagetable, lay)
       then exists slot: nat :: ForkedTo(m, lay, s, s', slot)
       else s'.refs == s.refs && SlotUnused(s.ptable, s'.ptable)
  }

  ghost predicate Exited(lay: Layout, s: Snapshot, s': Snapshot)
    requires s.current < |s.ptable|
  {
    && Dropped(s.refs, s'.refs, Uses(s.mem, s.ptable[s.current].pagetable, lay))
    && Rescheduled(WithState(s, Free).(refs := s'.refs), s')
  }

  ghost predicate PageTaken(m: Machine, lay: Layout, s: Snapshot, addr: nat, s': Snapshot) {
    if InRange(lay, addr) && !AllUsed(m, s.refs) then
      && s' == s.(mem := s'.mem, refs := s'.refs)
      && exists pa: nat :: PageAllocated(m, lay, s.mem, s.refs, s.ptable, s.current, addr, pa, s'.mem, s'.refs)
    else s' == s
  }

  ghost predicate SetUp(m: Machine, lay: Layout, kernelPt: nat, s: Snapshot, pid: nat, requests: seq<Request>,
                        initial: Regs, entry: Regs,
                        s': Snapshot)
    requires pid < |s.ptable| && lay.procStart < lay.memVirtual
  {
    var free, low, all := |FreeSet(m, s.refs)|, View(s.mem, kernelPt, lay.procStart), Demanded(requests, lay);
    && s'.current == s.current && KeepsUsed(m, s.mem, s.refs, s'.mem)
    && if free == 0 then s' == s.(ptable := s.ptable[pid := s.ptable[pid].(regs := initial)])
       else
         && |s'.ptable| == |s.ptable|
             && s'.ptable == s.ptable[pid := Proc(pid, s'.ptable[pid].pagetable, Runnable, entry)]
         && (Distinct(all) && free >= Needs(low, all) ==>
             Planned(View(s'.mem, s'.ptable[pid].pagetable, lay.memVirtual), low, all, lay))
  }

  /** Step `step` leads from `s` to `s'`. A step that is not enabled does not happen. */
  ghost predicate Next(m: Machine, lay: Layout, kernelPt: nat, s: Snapshot, step: Step, s': Snapshot)
    requires lay.procStart < lay.memVirtual
  {
    if !Enabled(lay, s, step) then s' == s
    else match step
      case Setup(pid, requests, initial, entry) => SetUp(m, lay, kernelPt, s, pid, requests, initial, entry, s')
      case Start => s' == s.(current := 1)
      case Load(va, regs) => if CanLoad(s.mem, s.ptable[s.current].pagetable, va) then s' == s else Faulted(s, regs, s')
      case Store(va, word, regs) =>
        if CanStore(s.mem, s.ptable[s.current].pagetable, va) then
          s' == s.(mem := Stored(s.mem, s.ptable[s.current].pagetable, va, word))
        else Faulted(s, regs, s')
      case Timer(regs) => Rescheduled(Trapped(s, regs), s')
      case SysGetPid(regs) => s' == Trapped(s, regs)
      case SysYield(regs) => Rescheduled(Trapped(s, regs.(rax := 0)), s')
      case SysFork(regs) => Forked(m, lay, Trapped(s, regs), s')
      case SysExit(regs) => Exited(lay, Trapped(s, regs), s')
      case SysPageAlloc(addr, regs) => PageTaken(m, lay, Trapped(s, regs), addr, s')
      case Unexpected => false
  }

  /** The states `trace` that the steps lead through, all of them steady but perhaps the last. */
  ghost predicate IsRun(m: Machine, lay: Layout, kernelPt: nat, steps: seq<Step>, trace: seq<Snapshot>) {
    && lay.procStart < lay.memVirtual && |trace| == |steps| + 1
    && forall i :: 0 <= i < |steps| ==>
        Steady(m, lay, kernelPt, trace[i])
        && Next(m, lay, kernelPt, trace[i], steps[i], trace[i + 1])
  }

  // ---------------------------------------------------------------------------------------
  // What a step leaves to the processes that do not make it

  /** Nothing has changed for process `j`, the console apart. */
  ghost predicate Untouched(lay: Layout, s: Snapshot, s': Snapshot, j: nat)
    requires j < |s.ptable|
  {
    && |s'.ptable| == |s.ptable| && s'.ptable[j] == s.ptable[j]
    && SameTranslation(s.mem, s'.mem, s.ptable[j].pagetable)
    && SameContents(s.mem, s'.mem, s.ptable[j].pagetable, lay)
  }

  /** A trap changes registers only. */
  lemma TrapKeeps(m: Machine, lay: Layout, s: Snapshot, regs: Regs)
    requires s.current < |s.ptable| && Good(m, s.mem, s.refs, s.ptable, lay)
    ensures Good(m, s.mem, s.refs, Trapped(s, regs).ptable, lay)
    ensures Exact(m, s.mem, s.refs, Trapped(s, regs).ptable, lay) <==> Exact(m, s.mem, s.refs, s.ptable, lay)
  {
    hide Good, Exact, Keeps;
    GoodSameSpaces(m, s.mem, s.refs, s.ptable, Trapped(s, regs).ptable, lay);
    KeepsExact(m, s.mem, s.refs, s.ptable, s.mem, s.refs, Trapped(s, regs).ptable, lay);
  }

  lemma UsedUntouched(m: Machine, lay: Layout, s: Snapshot, s': Snapshot, j: nat)
    requires Good(m, s.mem, s.refs, s.ptable, lay) && Live(s.ptable, j) && KeepsUsed(m, s.mem, s.refs, s'.mem)
    requires |s'.ptable| == |s.ptable| && s'.ptable[j] == s.ptable[j]
    ensures Untouched(lay, s, s', j)
  {
    UsedContentsStay(m, s.mem, s.refs, s.ptable, lay, s'.mem, j);
  }

  lemma ForkLeaves(m: Machine, lay: Layout, s: Snapshot, s': Snapshot, j: nat)
    requires s.current < |s.ptable| && Live(s.ptable, j) && j != s.current && Forked(m, lay, s, s')
    ensures |s'.ptable| == |s.ptable| && s'.ptable[j] == s.ptable[j]
  {
  }

  lemma AllocLeaves(m: Machine, lay: Layout, s: Snapshot, addr: nat, s': Snapshot, j: nat)
    requires Good(m, s.mem, s.refs, s.ptable, lay) && Live(s.ptable, s.current) && Live(s.ptable, j) && j != s.current
    requires PageTaken(m, lay, s, addr, s')
    ensures Untouched(lay, s, s', j)
  {
    if s' != s {
      var pa: nat :| PageAllocated(m, lay, s.mem, s.refs, s.ptable, s.current, addr, pa, s'.mem, s'.refs);
      forall b: nat | b < VA_END && CanLoad(s.mem, s.ptable[j].pagetable, b) && b / PAGESIZE != lay.console
        ensures Loaded(s'.mem, s.ptable[j].pagetable, b) == Loaded(s.mem, s.ptable[j].pagetable, b)
      {
        ContentsStay(m, s.mem, s.refs, s.ptable, lay, s.current, s'.mem, j, b);
      }
    }
  }

  lemma StoreLeaves(m: Machine, lay: Layout, kernelPt: nat, s: Snapshot, va: nat, word: Word, j: nat)
    requires Steady(m, lay, kernelPt, s) && Live(s.ptable, s.current) && Live(s.ptable, j) && j != s.current
    requires va < VA_END && CanStore(s.mem, s.ptable[s.current].pagetable, va)
    ensures Untouched(lay, s, s.(mem := Stored(s.mem, s.ptable[s.current].pagetable, va, word)), j)
  {
    var mem' := Stored(s.mem, s.ptable[s.current].pagetable, va, word);
    StoreKeepsGood(m, s.mem, s.refs, s.ptable, lay, s.current, va, word);
    forall b: nat | b < VA_END && CanLoad(s.mem, s.ptable[j].pagetable, b) && b / PAGESIZE != lay.console
      ensures Loaded(mem', s.ptable[j].pagetable, b) == Loaded(s.mem, s.ptable[j].pagetable, b)
    {
      StoreShows(m, s.mem, s.refs, s.ptable, lay, s.current, va, word, j, b);
      SameWord(va, b);
    }
  }

  lemma SameMemoryUntouched(lay: Layout, s: Snapshot, s': Snapshot, j: nat)
    requires j < |s.ptable| == |s'.ptable| && s'.mem == s.mem && s'.ptable[j] == s.ptable[j]
    ensures Untouched(lay, s, s', j)
  {
  }

  /** A step changes nothing for a process that does not make it. */
  lemma StepLeaves(m: Machine, lay: Layout, kernelPt: nat, s: Snapshot, step: Step, s': Snapshot, j: nat)
    requires Steady(m, lay, kernelPt, s) && Next(m, lay, kernelPt, s, step, s') && Live(s.ptable, j) && j != s.current
    ensures Untouched(lay, s, s', j)
  {
    hide Good, KernelTable, SameTranslation, SameContents, KeepsUsed, CanLoad, CanStore, Stored, PageTaken, Picks, Uses,
         Dropped;
    if Enabled(lay, s, step) {
      match step
      case Setup(pid, requests, initial, entry) => UsedUntouched(m, lay, s, s', j);
      case Store(va, word, regs) =>
        if CanStore(s.mem, s.ptable[s.current].pagetable, va) {
          StoreLeaves(m, lay, kernelPt, s, va, word, j);
        } else {
          SameMemoryUntouched(lay, s, s', j);
        }
      case SysFork(regs) =>
        TrapKeeps(m, lay, s, regs);
        ForkLeaves(m, lay, Trapped(s, regs), s', j);
        UsedUntouched(m, lay, Trapped(s, regs), s', j);
      case SysPageAlloc(addr, regs) =>
        TrapKeeps(m, lay, s, regs);
        AllocLeaves(m, lay, Trapped(s, regs), addr, s', j);
      case _ => SameMemoryUntouched(lay, s, s', j);
    } else {
      SameMemoryUntouched(lay, s, s', j);
    }
  }

  lemma UntouchedTrans(lay: Layout, s: Snapshot, s1: Snapshot, s2: Snapshot, j: nat)
    requires j < |s.ptable| && Untouched(lay, s, s1, j) && Untouched(lay, s1, s2, j)
    ensures Untouched(lay, s, s2, j)
  {
    var root := s.ptable[j].pagetable;
    forall x
      ensures Translate(s2.mem, root, x) == Translate(s.mem, root, x)
    {
      assert Translate(s1.mem, root, x) == Translate(s.mem, root, x);
    }
    forall b: nat | b < VA_END && CanLoad(s.mem, root, b) && b / PAGESIZE != lay.console
      ensures Loaded(s2.mem, root, b) == Loaded(s.mem, root, b)
    {
      assert CanLoad(s1.mem, root, b);
    }
  }

  /** Whatever other processes do in a run, nothing changes for a process that is not run: not its registers, not its
      translations, and not what it can load. */
  lemma {:induction false} RunLeaves(m: Machine, lay: Layout, kernelPt: nat, steps: seq<Step>, trace: seq<Snapshot>,
                                     j: nat, n: nat)
    requires IsRun(m, lay, kernelPt, steps, trace) && n <= |steps| && Live(trace[0].ptable, j)
    requires forall i :: 0 <= i < n ==> trace[i].current != j
    ensures Untouched(lay, trace[0], trace[n], j)
  {
    hide Next, Steady, SameTranslation, SameContents;
    if n > 0 {
      RunLeaves(m, lay, kernelPt, steps, trace, j, n - 1);
      StepLeaves(m, lay, kernelPt, trace[n - 1], steps[n - 1], trace[n], j);
      UntouchedTrans(lay, trace[0], trace[n - 1], trace[n], j);
    } else {
      SameMemoryUntouched(lay, trace[0], trace[0], j);
    }
  }

  // ---------------------------------------------------------------------------------------
  // What a process can load is what it stored

  /** Process `j` stores to the word at `b` in this step. */
  ghost predicate StoresAt(lay: Layout, s: Snapshot, step: Step, j: nat, b: nat)
    requires j < |s.ptable|
  {
    && step.Store? && s.current == j && Enabled(lay, s, step)
    && CanStore(s.mem, s.ptable[j].pagetable, step.va) && step.va / 8 == b / 8
  }

  /** The step is an exit of process `j`. */
  predicate Exits(lay: Layout, s: Snapshot, step: Step, j: nat) {
    step.SysExit? && s.current == j && Enabled(lay, s, step)
  }

  /** Process `j` gets a new page at the page of `b` in this step. */
  ghost predicate Renews(m: Machine, lay: Layout, s: Snapshot, step: Step, j: nat, b: nat) {
    && Allocates(m, lay, s, step) && s.current == j && step.addr / PAGESIZE == b / PAGESIZE
    && Enough(m, s.mem, s.refs, s.ptable[j].pagetable, b / PAGESIZE)
  }

  /** The process still has its table and may access `b` as before, and loads `word` there. */
  ghost predicate Holds(s: Snapshot, s': Snapshot, j: nat, b: nat, word: Word)
    requires j < |s.ptable|
  {
    var root := s.ptable[j].pagetable;
    && |s'.ptable| == |s.ptable| && Live(s'.ptable, j) && s'.ptable[j].pagetable == root
    && CanLoad(s'.mem, root, b) && (CanStore(s.mem, root, b) ==> CanStore(s'.mem, root, b))
    && Loaded(s'.mem, root, b) == word
  }

  /** A page allocation gives a page of zeros, and leaves the other pages of the caller. */
  lemma AllocHolds(m: Machine, lay: Layout, s: Snapshot, addr: nat, s': Snapshot, b: nat)
    requires Good(m, s.mem, s.refs, s.ptable, lay) && Live(s.ptable, s.current) && PageTaken(m, lay, s, addr, s')
    requires InRange(lay, addr) && !AllUsed(m, s.refs) && addr % PAGESIZE == 0
    requires b < VA_END && CanLoad(s.mem, s.ptable[s.current].pagetable, b) && b / PAGESIZE != lay.console
    ensures var root := s.ptable[s.current].pagetable;
            Holds(s, s', s.current, b,
                  if addr / PAGESIZE == b / PAGESIZE && Enough(m, s.mem, s.refs, root, b / PAGESIZE) then ZERO
                  else Loaded(s.mem, root, b))
  {
    hide Good, SameTranslation, OnlyOwn, CanLoad, CanStore, Loaded, Loses, Exact, FreeSet, FreshCursor, AllUsed,
         NewMapping, Space;
    var j, root := s.current, s.ptable[s.current].pagetable;
    var pa: nat :| PageAllocated(m, lay, s.mem, s.refs, s.ptable, j, addr, pa, s'.mem, s'.refs);
    IntactAt(m, s.mem, s.refs, s.ptable, lay, j);
    IntactAt(m, s'.mem, s'.refs, s'.ptable, lay, j);
    assert addr == addr / PAGESIZE * PAGESIZE;
    if addr / PAGESIZE == b / PAGESIZE && Enough(m, s.mem, s.refs, root, b / PAGESIZE) {
      NewPageHolds(m, s'.mem, root, lay, pa, b);
    } else {
      GoodLayout(m, s.mem, s.refs, s.ptable, lay);
      OtherPageStays(m, s.mem, s'.mem, root, lay, addr / PAGESIZE, pa, b);
      ContentsStay(m, s.mem, s.refs, s.ptable, lay, j, s'.mem, j, b);
      SameCanStore(s.mem, s'.mem, root, b);
    }
  }

  lemma GoodLayout(m: Machine, mem: Mem, refs: seq<nat>, ptable: seq<Proc>, lay: Layout)
    requires Good(m, mem, refs, ptable, lay)
    ensures lay.Ok() && |ptable| > 0 && ptable[0].state.Free?
  {
  }

  lemma SameCanStore(mem: Mem, mem': Mem, root: nat, b: nat)
    requires Translate(mem', root, b) == Translate(mem, root, b)
    ensures CanLoad(mem', root, b) == CanLoad(mem, root, b) && CanStore(mem', root, b) == CanStore(mem, root, b)
  {
  }

  /** The new page can be loaded and stored to, and holds zeros. */
  lemma NewPageHolds(m: Machine, mem: Mem, root: nat, lay: Layout, pa: nat, b: nat)
    requires Space(m, mem, root, lay) && b < VA_END && b / PAGESIZE < lay.memVirtual && pa < |mem|
               && mem[pa] == Filled(ZERO)
    requires View(mem, root, lay.memVirtual)[b / PAGESIZE] == NewMapping(pa)
    ensures CanLoad(mem, root, b) && CanStore(mem, root, b) && Loaded(mem, root, b) == ZERO
  {
    hide Translate, Tidy, Uses, AllProper, Beyond, View;
    NewFrame(pa);
    ViewAt(mem, root, lay.memVirtual, b / PAGESIZE);
    InPage(mem, root, b);
  }

  /** A page that is not the one allocated, or all of them if it is not mapped. */
  lemma OtherPageStays(m: Machine, mem: Mem, mem': Mem, root: nat, lay: Layout, v: nat, pa: nat, b: nat)
    requires lay.Ok() && Space(m, mem, root, lay) && Space(m, mem', root, lay) && b < VA_END && CanLoad(mem, root, b)
    requires v < lay.memVirtual
    requires var view, view' := View(mem, root, lay.memVirtual), View(mem', root, lay.memVirtual);
             view' == view || (v != b / PAGESIZE && view' == view[v := NewMapping(pa)])
    ensures Translate(mem', root, b) == Translate(mem, root, b)
  {
    hide Translate, Tidy, Uses, AllProper, Beyond, View;
    UserAddress(m, mem, root, lay, b);
    ViewAt(mem, root, lay.memVirtual, b / PAGESIZE);
    ViewAt(mem', root, lay.memVirtual, b / PAGESIZE);
    InPage(mem, root, b);
    InPage(mem', root, b);
  }

  lemma ForkHolds(m: Machine, lay: Layout, s: Snapshot, s': Snapshot, b: nat)
    requires Good(m, s.mem, s.refs, s.ptable, lay) && Live(s.ptable, s.current) && Forked(m, lay, s, s')
    requires b < VA_END && CanLoad(s.mem, s.ptable[s.current].pagetable, b) && b / PAGESIZE != lay.console
    ensures Holds(s, s', s.current, b, Loaded(s.mem, s.ptable[s.current].pagetable, b))
  {
    hide Good, Keeps, KeepsUsed, CanLoad, CanStore, Loaded, ForkedInto, SlotUnused, CopiedEverywhere, FreeSet,
         ForkNeeds, Raised, Uses;
    var root := s.ptable[s.current].pagetable;
    UsedContentsStay(m, s.mem, s.refs, s.ptable, lay, s'.mem, s.current);
    assert Translate(s'.mem, root, b) == Translate(s.mem, root, b);
    SameCanStore(s.mem, s'.mem, root, b);
    ForkKeepsParent(m, lay, s, s');
  }

  lemma ForkKeepsParent(m: Machine, lay: Layout, s: Snapshot, s': Snapshot)
    requires Live(s.ptable, s.current) && Forked(m, lay, s, s')
    ensures |s'.ptable| == |s.ptable| && Live(s'.ptable, s.current)
              && s'.ptable[s.current].pagetable == s.ptable[s.current].pagetable
  {
    hide Keeps, KeepsUsed, CopiedEverywhere, FreeSet, ForkNeeds, Raised, Uses;
  }

  lemma SameMemoryHolds(s: Snapshot, s': Snapshot, j: nat, b: nat)
    requires j < |s.ptable| == |s'.ptable| && s'.mem == s.mem && Live(s'.ptable, j)
               && s'.ptable[j].pagetable == s.ptable[j].pagetable
    requires CanLoad(s.mem, s.ptable[j].pagetable, b)
    ensures Holds(s, s', j, b, Loaded(s.mem, s.ptable[j].pagetable, b))
  {
  }

  lemma UntouchedHolds(lay: Layout, s: Snapshot, s': Snapshot, j: nat, b: nat)
    requires Live(s.ptable, j) && Untouched(lay, s, s', j)
    requires b < VA_END && CanLoad(s.mem, s.ptable[j].pagetable, b) && b / PAGESIZE != lay.console
    ensures Holds(s, s', j, b, Loaded(s.mem, s.ptable[j].pagetable, b))
  {
    hide CanLoad, CanStore, Loaded;
    assert Translate(s'.mem, s.ptable[j].pagetable, b) == Translate(s.mem, s.ptable[j].pagetable, b);
    SameCanStore(s.mem, s'.mem, s.ptable[j].pagetable, b);
  }

  lemma StoreHolds(m: Machine, lay: Layout, kernelPt: nat, s: Snapshot, va: nat, word: Word, b: nat)
    requires Steady(m, lay, kernelPt, s) && Live(s.ptable, s.current) && va < VA_END
               && CanStore(s.mem, s.ptable[s.current].pagetable, va)
    requires b < VA_END && CanLoad(s.mem, s.ptable[s.current].pagetable, b)
    ensures var root := s.ptable[s.current].pagetable;
            Holds(s, s.(mem := Stored(s.mem, root, va, word)), s.current, b, if va / 8 == b / 8 then word
                  else Loaded(s.mem, root, b))
  {
    hide Good, KernelTable, CanLoad, CanStore, Loaded, Stored, Keeps, Exact;
    var root, mem' := s.ptable[s.current].pagetable, Stored(s.mem, s.ptable[s.current].pagetable, va, word);
    StoreKeepsGood(m, s.mem, s.refs, s.ptable, lay, s.current, va, word);
    assert SameTranslation(s.mem, mem', root);
    assert Translate(mem', root, b) == Translate(s.mem, root, b);
    SameCanStore(s.mem, mem', root, b);
    StoreShows(m, s.mem, s.refs, s.ptable, lay, s.current, va, word, s.current, b);
  }

  /** One step: the word at `b` is the one that the process itself stores there, or zero in a page that it has just
      asked for, or as before. */
  lemma StepHolds(m: Machine, lay: Layout, kernelPt: nat, s: Snapshot, step: Step, s': Snapshot, j: nat, b: nat)
    requires Steady(m, lay, kernelPt, s) && Steady(m, lay, kernelPt, s') && Next(m, lay, kernelPt, s, step, s')
    requires Live(s.ptable, j) && !Exits(lay, s, step, j) && !Panics(m, lay, s, step)
    requires b < VA_END && CanLoad(s.mem, s.ptable[j].pagetable, b) && b / PAGESIZE != lay.console
    ensures Holds(s, s', j, b, if StoresAt(lay, s, step, j, b) then step.word
                               else if Renews(m, lay, s, step, j, b) then ZERO
                               else Loaded(s.mem, s.ptable[j].pagetable, b))
  {
    hide Good, KernelTable, Exact, KeepsUsed, CanLoad, CanStore, Stored, Loaded, Forked, PageTaken, Untouched, Holds,
         Uses, Dropped,
         AllUsed, Enough, Picks;
    GoodLayout(m, s.mem, s.refs, s.ptable, lay);
    if j != s.current {
      StepLeaves(m, lay, kernelPt, s, step, s', j);
      UntouchedHolds(lay, s, s', j, b);
    } else if Enabled(lay, s, step) {
      match step
      case Store(va, word, regs) =>
        if CanStore(s.mem, s.ptable[j].pagetable, va) {
          StoreHolds(m, lay, kernelPt, s, va, word, b);
        } else {
          SameMemoryHolds(s, s', j, b);
        }
      case SysFork(regs) =>
        TrapKeeps(m, lay, s, regs);
        ForkHolds(m, lay, Trapped(s, regs), s', b);
        HoldsTrapped(s, regs, s', b, Loaded(s.mem, s.ptable[j].pagetable, b));
      case SysPageAlloc(addr, regs) =>
        TrapKeeps(m, lay, s, regs);
        StepAllocHolds(m, lay, s, step, s', b);
      case Setup(_, _, _, _) =>
      case Start =>
      case _ => SameMemoryHolds(s, s', j, b);
    } else {
      SameMemoryHolds(s, s', j, b);
    }
  }

  lemma HoldsTrapped(s: Snapshot, regs: Regs, s': Snapshot, b: nat, word: Word)
    requires s.current < |s.ptable| && Holds(Trapped(s, regs), s', s.current, b, word)
    ensures Holds(s, s', s.current, b, word)
  {
    hide CanLoad, CanStore, Loaded;
  }

  lemma StepAllocHolds(m: Machine, lay: Layout, s: Snapshot, step: Step, s': Snapshot, b: nat)
    requires step.SysPageAlloc? && Enabled(lay, s, step) && !Panics(m, lay, s, step)
    requires Good(m, s.mem, s.refs, Trapped(s, step.regs).ptable, lay)
               && PageTaken(m, lay, Trapped(s, step.regs), step.addr, s')
    requires b < VA_END && CanLoad(s.mem, s.ptable[s.current].pagetable, b) && b / PAGESIZE != lay.console
    ensures Holds(s, s', s.current, b,
                  if Renews(m, lay, s, step, s.current, b) then ZERO
                      else Loaded(s.mem, s.ptable[s.current].pagetable, b))
  {
    hide Good, CanLoad, CanStore, Loaded, AllUsed, Holds, Enough, PageTaken;
    var t := Trapped(s, step.regs);
    if InRange(lay, step.addr) && !AllUsed(m, s.refs) {
      assert step.addr % PAGESIZE == 0;
      AllocHolds(m, lay, t, step.addr, s', b);
      HoldsTrapped(s, step.regs, s', b,
                   if Renews(m, lay, s, step, s.current, b) then ZERO
                       else Loaded(s.mem, s.ptable[s.current].pagetable, b));
    } else {
      NotTaken(m, lay, t, step.addr, s');
      SameMemoryHolds(s, s', s.current, b);
    }
  }

  lemma NotTaken(m: Machine, lay: Layout, s: Snapshot, addr: nat, s': Snapshot)
    requires PageTaken(m, lay, s, addr, s') && !(InRange(lay, addr) && !AllUsed(m, s.refs))
    ensures s' == s
  {
  }

  /** The word that process `j` last stored at `b` in the first `n` steps, or zero if it got a new page there since,
      or what was there at the start. */
  ghost function LastStored(m: Machine, lay: Layout, steps: seq<Step>, trace: seq<Snapshot>, j: nat, b: nat,
                            n: nat): Word
    requires n <= |steps| < |trace| && forall i :: 0 <= i <= n ==> j < |trace[i].ptable|
  {
    if n == 0 then Loaded(trace[0].mem, trace[0].ptable[j].pagetable, b)
    else if StoresAt(lay, trace[n - 1], steps[n - 1], j, b) then steps[n - 1].word
    else if Renews(m, lay, trace[n - 1], steps[n - 1], j, b) then ZERO
    else LastStored(m, lay, steps, trace, j, b, n - 1)
  }

  /** In every run, a process that does not exit keeps access to every page that it can access, and finds in every
      word, the console apart, what it itself stored there last. */
  lemma {:induction false} Remembers(m: Machine, lay: Layout, kernelPt: nat, steps: seq<Step>, trace: seq<Snapshot>,
                                     j: nat, b: nat, n: nat)
    requires IsRun(m, lay, kernelPt, steps, trace) && n <= |steps| && Steady(m, lay, kernelPt, trace[n])
    requires Live(trace[0].ptable, j) && forall i :: 0 <= i < n ==>
               !Exits(lay, trace[i], steps[i], j)
               && !Panics(m, lay, trace[i], steps[i])
    requires b < VA_END && CanLoad(trace[0].mem, trace[0].ptable[j].pagetable, b) && b / PAGESIZE != lay.console
    ensures forall i :: 0 <= i <= n ==> |trace[i].ptable| == |trace[0].ptable|
    ensures Holds(trace[0], trace[n], j, b, LastStored(m, lay, steps, trace, j, b, n))
  {
    hide Next, Steady, Loaded, StoresAt, Exits, Renews, Panics, CanLoad, CanStore;
    if n > 0 {
      Remembers(m, lay, kernelPt, steps, trace, j, b, n - 1);
      StepHolds(m, lay, kernelPt, trace[n - 1], steps[n - 1], trace[n], j, b);
    }
  }

  /** The child of a fork can load what its parent can, and finds the same there. */
  lemma ChildInherits(m: Machine, lay: Layout, s: Snapshot, s': Snapshot, slot: nat, b: nat)
    requires Good(m, s.mem, s.refs, s.ptable, lay) && Live(s.ptable, s.current) && Forked(m, lay, s, s')
               && ForkedTo(m, lay, s, s', slot)
    requires b < VA_END && CanLoad(s.mem, s.ptable[s.current].pagetable, b)
    ensures CanLoad(s'.mem, s'.ptable[slot].pagetable, b)
    ensures Loaded(s'.mem, s'.ptable[slot].pagetable, b) == Loaded(s.mem, s.ptable[s.current].pagetable, b)
    ensures CanStore(s'.mem, s'.ptable[slot].pagetable, b) == CanStore(s.mem, s.ptable[s.current].pagetable, b)
  {
    hide Translate, Space, Uses, View, Private;
    var root, child := s.ptable[s.current].pagetable, s'.ptable[slot].pagetable;
    IntactAt(m, s.mem, s.refs, s.ptable, lay, s.current);
    UserAddress(m, s.mem, root, lay, b);
    if b / PAGESIZE != lay.console {
      ReachedIsCounted(m, s.mem, s.refs, s.ptable, lay, s.current, b);
    }
    assert AddressCopy(s.mem, s.refs, s'.mem, Translate(s.mem, root, b), Translate(s'.mem, child, b), b, lay);
  }

  // ---------------------------------------------------------------------------------------
  // The kernel's own pages

  /** A page that no process may reach: the console is the only one of those kept back that is open to users. */
  ghost predicate KernelOnly(m: Machine, lay: Layout, f: nat) {
    m.Kept(f) && f != lay.console
  }

  lemma KeptIsNotHandedOut(m: Machine, f: nat)
    requires m.Kept(f)
    ensures !m.Allocatable(f)
  {
  }

  /** No user address of any live process leads to a page of the kernel. */
  lemma KernelOutOfReach(m: Machine, lay: Layout, kernelPt: nat, s: Snapshot, j: nat, va: nat)
    requires Steady(m, lay, kernelPt, s) && Live(s.ptable, j) && va < VA_END
               && CanLoad(s.mem, s.ptable[j].pagetable, va)
    ensures !KernelOnly(m, lay, FrameIn(Translate(s.mem, s.ptable[j].pagetable, va)))
  {
    hide Good, KernelTable, Exact, Translate;
    var f := FrameIn(Translate(s.mem, s.ptable[j].pagetable, va));
    ReachedPage(m, s.mem, s.refs, s.ptable, lay, j, va);
    if m.Kept(f) {
      KeptIsNotHandedOut(m, f);
    }
  }

  lemma AllocProtects(m: Machine, lay: Layout, s: Snapshot, addr: nat, s': Snapshot, f: nat)
    requires Good(m, s.mem, s.refs, s.ptable, lay) && Live(s.ptable, s.current) && PageTaken(m, lay, s, addr, s')
    requires f < m.npages && !m.Allocatable(f)
    ensures |s.mem| == |s'.mem| == m.npages && s'.mem[f] == s.mem[f]
  {
    hide Loses, Exact, SameTranslation, View, FreeSet, Owned, Uses, Pages;
    if InRange(lay, addr) && !AllUsed(m, s.refs) {
      var pa: nat :| PageAllocated(m, lay, s.mem, s.refs, s.ptable, s.current, addr, pa, s'.mem, s'.refs);
      var root := s.ptable[s.current].pagetable;
      IntactAt(m, s.mem, s.refs, s.ptable, lay, s.current);
      if f in Pages(s.mem, root, 3) {
        TablePageUsed(s.mem, root, lay, f);
      }
    }
  }

  /** No step changes a page of the kernel. */
  lemma StepProtects(m: Machine, lay: Layout, kernelPt: nat, s: Snapshot, step: Step, s': Snapshot, f: nat)
    requires Steady(m, lay, kernelPt, s) && Next(m, lay, kernelPt, s, step, s') && f < m.npages && KernelOnly(m, lay, f)
    ensures |s.mem| == |s'.mem| == m.npages && s'.mem[f] == s.mem[f]
  {
    hide Good, KernelTable, Exact, CanLoad, PageTaken, Picks, Uses, Dropped, Keeps, Translate;
    KeptIsNotHandedOut(m, f);
    assert |s.mem| == m.npages by { GoodMemory(m, s.mem, s.refs, s.ptable, lay); }
    if Enabled(lay, s, step) {
      match step
      case Store(va, word, regs) =>
        if CanStore(s.mem, s.ptable[s.current].pagetable, va) {
          ReachedPage(m, s.mem, s.refs, s.ptable, lay, s.current, va);
        }
      case SysPageAlloc(addr, regs) =>
        TrapKeeps(m, lay, s, regs);
        AllocProtects(m, lay, Trapped(s, regs), addr, s', f);
      case _ =>
    }
  }

  lemma GoodMemory(m: Machine, mem: Mem, refs: seq<nat>, ptable: seq<Proc>, lay: Layout)
    requires Good(m, mem, refs, ptable, lay)
    ensures |mem| == m.npages
  {
  }

  /** Over every run, whatever the processes do, the kernel's pages stay as they are. */
  lemma {:induction false} RunProtects(m: Machine, lay: Layout, kernelPt: nat, steps: seq<Step>, trace: seq<Snapshot>,
                                       n: nat, f: nat)
    requires IsRun(m, lay, kernelPt, steps, trace) && n <= |steps| && |trace[0].mem| == m.npages
    requires f < m.npages && KernelOnly(m, lay, f)
    ensures |trace[n].mem| == m.npages && trace[n].mem[f] == trace[0].mem[f]
  {
    hide Next, Steady;
    if n > 0 {
      RunProtects(m, lay, kernelPt, steps, trace, n - 1, f);
      StepProtects(m, lay, kernelPt, trace[n - 1], steps[n - 1], trace[n], f);
    }
  }

  // ---------------------------------------------------------------------------------------
  // Nobody starves

  /** The step calls `schedule`: a timer interrupt, a yield, an exit or a fault. */
  predicate Dispatches(lay: Layout, s: Snapshot, step: Step) {
    && Enabled(lay, s, step)
    && match step
       case Timer(_) => true
       case SysYield(_) => true
       case SysExit(_) => true
       case Load(va, _) => !CanLoad(s.mem, s.ptable[s.current].pagetable, va)
       case Store(va, _, _) => !CanStore(s.mem, s.ptable[s.current].pagetable, va)
       case _ => false
  }

  /** How many of the first `n` steps call `schedule`. */
  function Dispatched(lay: Layout, steps: seq<Step>, trace: seq<Snapshot>, n: nat): nat
    requires n <= |steps| < |trace|
  {
    if n == 0 then 0 else Dispatched(lay, steps, trace, n - 1) + if Dispatches(lay, trace[n - 1], steps[n - 1]) then 1
        else 0
  }

  /** A step that calls `schedule` and does not run `p` brings it nearer; no step takes it further away. */
  lemma StepNearer(m: Machine, lay: Layout, kernelPt: nat, s: Snapshot, step: Step, s': Snapshot, p: nat)
    requires Steady(m, lay, kernelPt, s) && Next(m, lay, kernelPt, s, step, s') && IsRunnable(s.ptable, p)
    requires s.current != p && s'.current != p
    ensures |s'.ptable| == lay.nproc && s'.current < lay.nproc
    ensures Distance(s'.current, p, lay.nproc) + (if Dispatches(lay, s, step) then 1 else 0) <= Distance(s.current, p,
            lay.nproc)
  {
    hide Good, KernelTable, KeepsUsed, CanLoad, CanStore, Stored, PageTaken, Uses, Dropped;
    if Dispatches(lay, s, step) {
      ScheduleNearer(m, lay, kernelPt, s, step, s', p);
    } else if Enabled(lay, s, step) && step.SysPageAlloc? {
      PageTakenSame(m, lay, Trapped(s, step.regs), step.addr, s');
    }
  }

  lemma PageTakenSame(m: Machine, lay: Layout, s: Snapshot, addr: nat, s': Snapshot)
    requires PageTaken(m, lay, s, addr, s')
    ensures s'.ptable == s.ptable && s'.current == s.current
  {
  }

  lemma ScheduleNearer(m: Machine, lay: Layout, kernelPt: nat, s: Snapshot, step: Step, s': Snapshot, p: nat)
    requires Steady(m, lay, kernelPt, s) && Next(m, lay, kernelPt, s, step, s') && IsRunnable(s.ptable, p)
    requires s.current != p && s'.current != p && Dispatches(lay, s, step)
    ensures |s'.ptable| == lay.nproc && s'.current < lay.nproc
    ensures Distance(s'.current, p, lay.nproc) < Distance(s.current, p, lay.nproc)
  {
    hide Good, KernelTable, KeepsUsed, CanLoad, CanStore, Stored, PageTaken, Uses, Dropped, Picks, Distance;
    assert IsRunnable(s'.ptable, p);
    assert Picks(s'.ptable, s.current, s'.current);
    PickInRange(s'.ptable, s.current, s'.current);
    DispatchNearer(s'.ptable, s.current, s'.current, p);
  }

  lemma PickInRange(ptable: seq<Proc>, c: nat, p: nat)
    requires Picks(ptable, c, p)
    ensures p < |ptable|
  {
  }

  /** As long as a runnable process has not been run, each call of `schedule` has brought it nearer. */
  lemma {:induction false} WaitsLess(m: Machine, lay: Layout, kernelPt: nat, steps: seq<Step>, trace: seq<Snapshot>,
                                     p: nat, n: nat)
    requires IsRun(m, lay, kernelPt, steps, trace) && n <= |steps| && Steady(m, lay, kernelPt, trace[0])
    requires forall i :: 0 <= i <= n ==> trace[i].current != p
    requires p < lay.nproc && forall i :: 0 <= i < n ==> IsRunnable(trace[i].ptable, p)
    ensures trace[0].current < lay.nproc && trace[n].current < lay.nproc
    ensures Distance(trace[n].current, p, lay.nproc) + Dispatched(lay, steps, trace, n) <= Distance(trace[0].current, p,
            lay.nproc)
  {
    hide Next, Good, KernelTable, Distance, Dispatches;
    if n > 0 {
      WaitsLess(m, lay, kernelPt, steps, trace, p, n - 1);
      StepNearer(m, lay, kernelPt, trace[n - 1], steps[n - 1], trace[n], p);
    }
  }

  /** No starvation, in any run whatever the processes do: a process that stays runnable is run before `schedule` has
      been called more often than its distance, at most NPROC times. */
  lemma DispatchedInRun(m: Machine, lay: Layout, kernelPt: nat, steps: seq<Step>, trace: seq<Snapshot>, p: nat, n: nat)
    requires IsRun(m, lay, kernelPt, steps, trace) && n <= |steps| && Steady(m, lay, kernelPt, trace[0])
    requires p < lay.nproc && forall i :: 0 <= i < n ==> IsRunnable(trace[i].ptable, p)
    requires Dispatched(lay, steps, trace, n) >= Distance(trace[0].current, p, lay.nproc)
    ensures exists k :: 0 <= k <= n && trace[k].current == p
  {
    if forall i :: 0 <= i <= n ==> trace[i].current != p {
      WaitsLess(m, lay, kernelPt, steps, trace, p, n);
    }
  }

  // ---------------------------------------------------------------------------------------
  // Exact accounts

  /** A step other than a setup keeps exact accounts exact, unless it loses a page; and what is lost stays lost. */
  lemma StepExact(m: Machine, lay: Layout, kernelPt: nat, s: Snapshot, step: Step, s': Snapshot)
    requires Steady(m, lay, kernelPt, s) && Next(m, lay, kernelPt, s, step, s') && !step.Setup?
               && !Panics(m, lay, s, step)
    ensures Exact(m, s.mem, s.refs, s.ptable, lay) ==>
              (Exact(m, s'.mem, s'.refs, s'.ptable, lay) <==> !Leaks(m, lay, s, step))
  {
    hide Good, KernelTable, Exact, Keeps, KeepsUsed, CanLoad, CanStore, Stored, PageTaken, Uses, Dropped, AllUsed,
         CleanAlloc, Picks,
         ForkedTo, FreeSet, SlotUnused;
    if Enabled(lay, s, step) {
      match step
      case Store(va, word, regs) =>
        if CanStore(s.mem, s.ptable[s.current].pagetable, va) {
          StoreKeepsGood(m, s.mem, s.refs, s.ptable, lay, s.current, va, word);
          KeepsExact(m, s.mem, s.refs, s.ptable, s'.mem, s'.refs, s'.ptable, lay);
        } else {
          FaultKeeps(m, lay, s, regs, s');
        }
      case Load(va, regs) =>
        if !CanLoad(s.mem, s.ptable[s.current].pagetable, va) {
          FaultKeeps(m, lay, s, regs, s');
        }
      case Timer(regs) => TrapKeeps(m, lay, s, regs);
      case SysGetPid(regs) => TrapKeeps(m, lay, s, regs);
      case SysYield(regs) => TrapKeeps(m, lay, s, regs.(rax := 0));
      case SysFork(regs) =>
        TrapKeeps(m, lay, s, regs);
        KeepsExact(m, s.mem, s.refs, Trapped(s, regs).ptable, s'.mem, s'.refs, s'.ptable, lay);
      case SysExit(regs) =>
        TrapKeeps(m, lay, s, regs);
        ExitedKeeps(m, lay, Trapped(s, regs), s');
      case SysPageAlloc(addr, regs) =>
        TrapKeeps(m, lay, s, regs);
        if Exact(m, s.mem, s.refs, s.ptable, lay) {
          AllocExact(m, lay, Trapped(s, regs), addr, s');
        }
      case _ =>
    }
  }

  lemma FaultKeeps(m: Machine, lay: Layout, s: Snapshot, regs: Regs, s': Snapshot)
    requires s.current < |s.ptable| && !s.ptable[s.current].state.Free? && Good(m, s.mem, s.refs, s.ptable, lay)
               && Faulted(s, regs, s')
    ensures Exact(m, s'.mem, s'.refs, s'.ptable, lay) <==> Exact(m, s.mem, s.refs, s.ptable, lay)
  {
    hide Good, Exact, Keeps;
    GoodSameSpaces(m, s.mem, s.refs, s.ptable, s'.ptable, lay);
    KeepsExact(m, s.mem, s.refs, s.ptable, s'.mem, s'.refs, s'.ptable, lay);
  }

  lemma ExitedKeeps(m: Machine, lay: Layout, s: Snapshot, s': Snapshot)
    requires Good(m, s.mem, s.refs, s.ptable, lay) && Live(s.ptable, s.current) && Exited(lay, s, s')
    ensures Exact(m, s'.mem, s'.refs, s'.ptable, lay) <==> Exact(m, s.mem, s.refs, s.ptable, lay)
  {
    hide Exact, Keeps, Uses;
    ExitKeeps(m, s.mem, s.refs, s'.refs, s.ptable, lay, s.current, s.ptable[s.current].(state := Free));
    KeepsExact(m, s.mem, s.refs, s.ptable, s'.mem, s'.refs, s'.ptable, lay);
  }

  lemma AllocExact(m: Machine, lay: Layout, s: Snapshot, addr: nat, s': Snapshot)
    requires Good(m, s.mem, s.refs, s.ptable, lay) && Live(s.ptable, s.current) && PageTaken(m, lay, s, addr, s')
    requires InRange(lay, addr) && !AllUsed(m, s.refs) ==> addr % PAGESIZE == 0
    requires Exact(m, s.mem, s.refs, s.ptable, lay)
    ensures Exact(m, s'.mem, s'.refs, s'.ptable, lay) <==>
              || !InRange(lay, addr) || AllUsed(m, s.refs)
              || CleanAlloc(m, s.mem, s.refs, s.ptable[s.current].pagetable, addr / PAGESIZE)
  {
    hide Good, Exact, Loses, FreeSet, AllUsed, OnlyOwn, SameTranslation;
    if InRange(lay, addr) && !AllUsed(m, s.refs) {
      var pa: nat :| PageAllocated(m, lay, s.mem, s.refs, s.ptable, s.current, addr, pa, s'.mem, s'.refs);
      ViewAt(s.mem, s.ptable[s.current].pagetable, lay.memVirtual, addr / PAGESIZE);
      assert addr == addr / PAGESIZE * PAGESIZE;
    }
  }

  /** The accounts are exact as long as no page is lost, and so no counter wraps. */
  lemma {:induction false} RunExact(m: Machine, lay: Layout, kernelPt: nat, steps: seq<Step>, trace: seq<Snapshot>,
                                    n: nat)
    requires IsRun(m, lay, kernelPt, steps, trace) && n <= |steps| && Steady(m, lay, kernelPt, trace[n])
    requires Exact(m, trace[0].mem, trace[0].refs, trace[0].ptable, lay)
    requires forall i :: 0 <= i < n ==> !Panics(m, lay, trace[i], steps[i]) && !Leaks(m, lay, trace[i], steps[i])
    ensures Exact(m, trace[n].mem, trace[n].refs, trace[n].ptable, lay)
    ensures n < |steps| ==> !Wraps(m, lay, trace[n], steps[n])
  {
    hide Next, Good, KernelTable, Exact, Panics, Leaks, ForkWraps;
    if n > 0 {
      RunExact(m, lay, kernelPt, steps, trace, n - 1);
      if steps[n - 1].Setup? {
        SetupBeforeStart(m, lay, kernelPt, trace[n - 1], steps[n - 1], trace[n]);
      } else {
        StepExact(m, lay, kernelPt, trace[n - 1], steps[n - 1], trace[n]);
      }
    }
    if n < |steps| && Enabled(lay, trace[n], steps[n]) && steps[n].SysFork? {
      assert Live(trace[n].ptable, trace[n].current);
      ExactNeverWraps(m, trace[n].mem, trace[n].refs, trace[n].ptable, lay, trace[n].current);
    }
  }

  lemma SetupBeforeStart(m: Machine, lay: Layout, kernelPt: nat, s: Snapshot, step: Step, s': Snapshot)
    requires lay.procStart < lay.memVirtual && Next(m, lay, kernelPt, s, step, s') && step.Setup?
    requires Steady(m, lay, kernelPt, s') && Exact(m, s.mem, s.refs, s.ptable, lay)
    ensures Exact(m, s'.mem, s'.refs, s'.ptable, lay)
  {
    hide Good, KernelTable, Exact, KeepsUsed, Planned, FreeSet;
  }

  /** The accounts can be broken from boot on: the first process is set up as asked for and started, and then asks for a
      page where its stack is. That loses a page, unless memory is full. */
  lemma OverwriteIsReached(m: Machine, lay: Layout, kernelPt: nat, s0: Snapshot, s1: Snapshot, s2: Snapshot,
                           requests: seq<Request>, initial: Regs, entry: Regs, regs: Regs)
    requires Steady(m, lay, kernelPt, s0) && Enabled(lay, s0, Setup(1, requests, initial, entry))
    requires var all := Demanded(requests, lay);
             Distinct(all) && |FreeSet(m, s0.refs)| >= Needs(View(s0.mem, kernelPt, lay.procStart), all)
    requires Next(m, lay, kernelPt, s0, Setup(1, requests, initial, entry), s1) && Next(m, lay, kernelPt, s1, Start, s2)
    ensures !Breaks(m, lay, kernelPt, s0, Setup(1, requests, initial, entry)) && !Panics(m, lay, s1, Start)
    ensures Leaks(m, lay, s2, SysPageAlloc((lay.memVirtual - 1) * PAGESIZE, regs)) <==> !AllUsed(m, s2.refs)
  {
    hide Good, KernelTable, KeepsUsed, FreeSet, FullPlan, View, AllUsed;
    var free, low, all, v := |FreeSet(m, s0.refs)|, View(s0.mem, kernelPt, lay.procStart), Demanded(requests, lay),
        lay.memVirtual - 1;
    var view := View(s2.mem, s2.ptable[1].pagetable, lay.memVirtual);
    WholeIff(free, low, all);
    assert Granted(view, all[|requests|]);
    ViewAt(s2.mem, s2.ptable[1].pagetable, lay.memVirtual, v);
    StackAddress(lay, v);
  }

  lemma StackAddress(lay: Layout, v: nat)
    requires lay.procStart <= v < lay.memVirtual
    ensures InRange(lay, v * PAGESIZE) && v * PAGESIZE % PAGESIZE == 0 && v * PAGESIZE / PAGESIZE == v
  {
  }
}
