/** How the counter of a page comes to its end and wraps around.

A process forks; its child asks for a page where the two share one, and exits. The shared page keeps the count that the
child's use gave it. After enough such rounds the counter is at its end, and the next fork wraps it.
 */
module Overflows {
  import opened Paging
  import opened PageTables
  import opened Depths
  import opened Allocator
  import opened VmIters
  import opened Spaces
  import opened Accounts
  import opened FreePages
  import opened Forks
  import opened ForkCosts
  import opened PageAllocs
  import opened Setups
  import opened Schedules
  import opened Runs

  /** A page that the user may only read. */
  ghost predicate ReadOnly(t: Translation, f: nat) {
    t.Mapped? && !Writable(t) && FrameIn(t) == f
  }

  /** The processes `runnable` can run, and the other slots are free. */
  ghost predicate Only(ptable: seq<Proc>, runnable: set<nat>) {
    |ptable| >= 3 && forall j :: 0 <= j < |ptable| ==>
        if j in runnable then ptable[j].state.Runnable? else ptable[j].state.Free?
  }

  /** Process 1 runs alone. It can only read page `v`, which is `f`, and a fork would leave a page free. */
  ghost predicate Ready(m: Machine, lay: Layout, s: Snapshot, v: nat, f: nat) {
    && Only(s.ptable, {1}) && s.current == 1 && lay.procStart <= v < lay.memVirtual
    && ReadOnly(View(s.mem, s.ptable[1].pagetable, lay.memVirtual)[v], f)
    && |FreeSet(m, s.refs)| > ForkNeeds(s.mem, s.ptable[1].pagetable, lay)
  }

  /** As `Ready`, after the fork: process 2 is the child, and shares the page. */
  ghost predicate Doubled(m: Machine, lay: Layout, s: Snapshot, v: nat, f: nat) {
    && Only(s.ptable, {1, 2}) && lay.procStart <= v < lay.memVirtual
    && ReadOnly(View(s.mem, s.ptable[2].pagetable, lay.memVirtual)[v], f)
    && |FreeSet(m, s.refs)| > 0
  }

  /** From `s` to `s'` the pages `lost` are lost, and process 1 keeps its table. */
  ghost predicate Costs(m: Machine, lay: Layout, s: Snapshot, s': Snapshot, lost: multiset<nat>) {
    && |s.ptable| == |s'.ptable| >= 3 && s'.ptable[1].pagetable == s.ptable[1].pagetable
    && Loses(m, s.mem, s.refs, s.ptable, s'.mem, s'.refs, s'.ptable, lay, lost)
    && Agree(s.mem, s'.mem, Pages(s.mem, s.ptable[1].pagetable, 3))
  }

  lemma CostsTrans(m: Machine, lay: Layout, s0: Snapshot, s1: Snapshot, s2: Snapshot, lost: multiset<nat>,
                   more: multiset<nat>)
    requires Costs(m, lay, s0, s1, lost) && Costs(m, lay, s1, s2, more)
    ensures Costs(m, lay, s0, s2, lost + more)
  {
    hide Loses, Pages;
    LosesTrans(m, s0.mem, s0.refs, s0.ptable, s1.mem, s1.refs, s1.ptable, s2.mem, s2.refs, s2.ptable, lay, lost, more);
    assert Pages(s1.mem, s0.ptable[1].pagetable, 3) == Pages(s0.mem, s0.ptable[1].pagetable, 3) by {
      TranslateFrame(s0.mem, s1.mem, s0.ptable[1].pagetable);
    }
  }

  /** Only registers and the current process change. */
  lemma TrapCosts(m: Machine, lay: Layout, s: Snapshot, s': Snapshot, regs: Regs)
    requires Good(m, s.mem, s.refs, s.ptable, lay) && s.current < |s.ptable| && |s.ptable| >= 3
    requires s'.mem == s.mem && s'.refs == s.refs && s'.ptable == Trapped(s, regs).ptable
    ensures Costs(m, lay, s, s', multiset{}) && Good(m, s'.mem, s'.refs, s'.ptable, lay)
  {
    hide Good, Loses, Pages;
    GoodSameSpaces(m, s.mem, s.refs, s.ptable, s'.ptable, lay);
  }

  // ---------------------------------------------------------------------------------------
  // One round

  lemma SecondIsLowest(ptable: seq<Proc>, slot: nat)
    requires Only(ptable, {1})
    ensures LowestFree(ptable, slot) <==> slot == 2
  {
    assert ptable[1].state.Runnable? && ptable[2].state.Free?;
  }

  /** A page that is shared is the same in the child. */
  lemma SharedInChild(mem0: Mem, refs0: seq<nat>, root: nat, mem: Mem, root': nat, lay: Layout, v: nat, f: nat)
    requires lay.Ok() && v < lay.memVirtual && CopiedEverywhere(mem0, refs0, root, mem, root', lay)
    requires ReadOnly(View(mem0, root, lay.memVirtual)[v], f)
    ensures ReadOnly(View(mem, root', lay.memVirtual)[v], f)
  {
    hide Translate;
    ViewAt(mem0, root, lay.memVirtual, v);
    ViewAt(mem, root', lay.memVirtual, v);
    assert AddressCopy(mem0, refs0, mem, Translate(mem0, root, v * PAGESIZE), Translate(mem, root', v * PAGESIZE),
                       v * PAGESIZE, lay);
  }

  lemma ForkDoubles(m: Machine, lay: Layout, s: Snapshot, s': Snapshot, v: nat, f: nat)
    requires Good(m, s.mem, s.refs, s.ptable, lay) && Ready(m, lay, s, v, f) && Forked(m, lay, s, s')
    ensures Doubled(m, lay, s', v, f) && s'.current == 1 && Costs(m, lay, s, s', multiset{})
  {
    hide Good, Loses, FreeSet, ForkNeeds, CopiedEverywhere, Raised, View, Pages, LowestFree, Live, KeepsUsed, Only,
         ForkedInto, ReadOnly;
    SecondIsLowest(s.ptable, 2);
    OnlySize(s.ptable, {1});
    var slot: nat :| ForkedTo(m, lay, s, s', slot);
    SecondIsLowest(s.ptable, slot);
    ForkedSlots(s.ptable, s'.ptable);
    GoodLayout(m, s.mem, s.refs, s.ptable, lay);
    SharedInChild(s.mem, s.refs, s.ptable[1].pagetable, s'.mem, s'.ptable[2].pagetable, lay, v, f);
    FirstLives(s.ptable);
    LiveAgree(m, s.mem, s.refs, s'.mem, s.ptable, lay, 1);
  }

  lemma OnlySize(ptable: seq<Proc>, runnable: set<nat>)
    requires Only(ptable, runnable)
    ensures |ptable| >= 3
  {
  }

  lemma ForkedSlots(ptable: seq<Proc>, ptable': seq<Proc>)
    requires Only(ptable, {1}) && ForkedInto(ptable, ptable', 1, 2)
    ensures Only(ptable', {1, 2}) && |ptable| == |ptable'| >= 3 && ptable[1].state.Runnable?
    ensures ptable'[1].pagetable == ptable[1].pagetable
  {
  }

  lemma FirstLives(ptable: seq<Proc>)
    requires |ptable| > 1 && ptable[1].state.Runnable?
    ensures Live(ptable, 1)
  {
  }

  lemma TrapReady(m: Machine, lay: Layout, s: Snapshot, regs: Regs, v: nat, f: nat)
    requires Ready(m, lay, s, v, f)
    ensures Ready(m, lay, Trapped(s, regs), v, f)
  {
  }

  lemma TrapDoubled(m: Machine, lay: Layout, s: Snapshot, s': Snapshot, regs: Regs, v: nat, f: nat)
    requires Doubled(m, lay, s, v, f) && 1 <= s.current <= 2
    requires s'.mem == s.mem && s'.refs == s.refs && s'.ptable == Trapped(s, regs).ptable
    ensures Doubled(m, lay, s', v, f)
  {
  }

  /** The fork of the first process. */
  lemma RoundForks(m: Machine, lay: Layout, kernelPt: nat, s: Snapshot, regs: Regs, s': Snapshot, v: nat, f: nat)
    requires Steady(m, lay, kernelPt, s) && Ready(m, lay, s, v, f) && Next(m, lay, kernelPt, s, SysFork(regs), s')
    ensures Doubled(m, lay, s', v, f) && s'.current == 1 && Costs(m, lay, s, s', multiset{})
  {
    hide Good, KernelTable, Exact, Ready, Doubled, Costs, Forked;
    assert Only(s.ptable, {1}) && s.current == 1 by { ReadyMeans(m, lay, s, v, f); }
    var t := Trapped(s, regs);
    TrapCosts(m, lay, s, t, regs);
    TrapReady(m, lay, s, regs, v, f);
    ForkDoubles(m, lay, t, s', v, f);
    CostsTrans(m, lay, s, t, s', multiset{}, multiset{});
    var none: multiset<nat> := multiset{};
    assert none + none == none;
  }

  lemma ReadyMeans(m: Machine, lay: Layout, s: Snapshot, v: nat, f: nat)
    requires Ready(m, lay, s, v, f)
    ensures Only(s.ptable, {1}) && s.current == 1
  {
  }

  lemma DoubledMeans(m: Machine, lay: Layout, s: Snapshot, v: nat, f: nat)
    requires Doubled(m, lay, s, v, f)
    ensures Only(s.ptable, {1, 2})
  {
  }

  /** `schedule` goes from one to the other. */
  lemma TurnsTo(ptable: seq<Proc>, c: nat, p: nat)
    requires Picks(ptable, c, p)
    ensures Only(ptable, {1, 2}) && c == 1 ==> p == 2
    ensures Only(ptable, {1}) ==> p == 1
  {
    assert Only(ptable, {1, 2}) ==> IsRunnable(ptable, 2);
  }

  /** The yield of the first process. */
  lemma RoundYields(m: Machine, lay: Layout, kernelPt: nat, s: Snapshot, regs: Regs, s': Snapshot, v: nat, f: nat)
    requires Steady(m, lay, kernelPt, s) && Doubled(m, lay, s, v, f) && s.current == 1
               && Next(m, lay, kernelPt, s, SysYield(regs), s')
    ensures Doubled(m, lay, s', v, f) && s'.current == 2 && Costs(m, lay, s, s', multiset{})
  {
    hide Good, KernelTable, Exact, Doubled, Costs, Picks;
    DoubledMeans(m, lay, s, v, f);
    TrapCosts(m, lay, s, s', regs.(rax := 0));
    TrapDoubled(m, lay, s, s', regs.(rax := 0), v, f);
    DoubledMeans(m, lay, s', v, f);
    assert IsRunnable(s'.ptable, 2);
    TurnsTo(s'.ptable, 1, s'.current);
  }

  /** The page is mapped, so its tables are there. */
  lemma ChildHasTables(m: Machine, mem: Mem, refs: seq<nat>, ptable: seq<Proc>, lay: Layout, i: nat, v: nat)
    requires Good(m, mem, refs, ptable, lay) && Live(ptable, i) && v < lay.memVirtual
    requires View(mem, ptable[i].pagetable, lay.memVirtual)[v].Mapped?
    ensures FreshCursor(mem, ptable[i].pagetable, v * PAGESIZE).level == 0
  {
    hide View, Uses, Owned;
    IntactAt(m, mem, refs, ptable, lay, i);
    if Level(mem, ptable[i].pagetable, v * PAGESIZE) > 0 {
      DeepIsUnmapped(mem, ptable[i].pagetable, lay.memVirtual, v);
    }
  }

  lemma AllocCosts(m: Machine, lay: Layout, s: Snapshot, s': Snapshot, v: nat, f: nat)
    requires Good(m, s.mem, s.refs, s.ptable, lay) && Doubled(m, lay, s, v, f) && s.current == 2
    requires PageTaken(m, lay, s, v * PAGESIZE, s')
    ensures s'.ptable == s.ptable && s'.current == 2 && Costs(m, lay, s, s', multiset{f})
    ensures Good(m, s'.mem, s'.refs, s'.ptable, lay)
  {
    hide Good, Loses, FreeSet, View, Pages, Exact, SameTranslation, OnlyOwn, AllUsed;
    StackAddress(lay, v);
    assert Live(s.ptable, 1) && Live(s.ptable, 2);
    SomeFree(m, s.refs);
    var pa: nat :| PageAllocated(m, lay, s.mem, s.refs, s.ptable, 2, v * PAGESIZE, pa, s'.mem, s'.refs);
    ChildHasTables(m, s.mem, s.refs, s.ptable, lay, 2, v);
    OldFrameCounted(m, s.mem, s.refs, s.ptable, lay, 2, v);
    OthersAgree(m, s.mem, s.refs, s.ptable, lay, 2, s'.mem, 1);
  }

  lemma SomeFree(m: Machine, refs: seq<nat>)
    requires |FreeSet(m, refs)| > 0
    ensures !AllUsed(m, refs)
  {
    if AllUsed(m, refs) {
      NoneFree(m, refs);
    }
  }

  /** The second process asks for a page where it shares one. */
  lemma RoundLoses(m: Machine, lay: Layout, kernelPt: nat, s: Snapshot, regs: Regs, s': Snapshot, v: nat, f: nat)
    requires Steady(m, lay, kernelPt, s) && Doubled(m, lay, s, v, f) && s.current == 2
    requires Next(m, lay, kernelPt, s, SysPageAlloc(v * PAGESIZE, regs), s')
    ensures Only(s'.ptable, {1, 2}) && s'.current == 2 && Costs(m, lay, s, s', multiset{f})
  {
    hide Good, KernelTable, Exact, Doubled, Costs, PageTaken;
    DoubledMeans(m, lay, s, v, f);
    var t := Trapped(s, regs);
    TrapCosts(m, lay, s, t, regs);
    TrapDoubled(m, lay, s, t, regs, v, f);
    AllocCosts(m, lay, t, s', v, f);
    CostsTrans(m, lay, s, t, s', multiset{}, multiset{f});
    assert multiset{} + multiset{f} == multiset{f};
  }

  /** The second process exits. */
  lemma RoundExits(m: Machine, lay: Layout, kernelPt: nat, s: Snapshot, regs: Regs, s': Snapshot)
    requires Steady(m, lay, kernelPt, s) && Only(s.ptable, {1, 2}) && s.current == 2
               && Next(m, lay, kernelPt, s, SysExit(regs), s')
    ensures Only(s'.ptable, {1}) && s'.current == 1 && Costs(m, lay, s, s', multiset{})
  {
    hide Good, KernelTable, Exact, Costs, Uses, Dropped, Picks, Loses;
    var t := Trapped(s, regs);
    TrapCosts(m, lay, s, t, regs);
    GoodSizes(m, s.mem, s.refs, s.ptable, lay);
    ExitKeeps(m, t.mem, t.refs, s'.refs, t.ptable, lay, 2, t.ptable[2].(state := Free));
    assert s'.ptable == t.ptable[2 := t.ptable[2].(state := Free)];
    assert Costs(m, lay, t, s', multiset{}) by { CostsNow(m, lay, t, s'); }
    CostsTrans(m, lay, s, t, s', multiset{}, multiset{});
    var none: multiset<nat> := multiset{};
    assert none + none == none;
    assert IsRunnable(s'.ptable, 1);
    TurnsTo(s'.ptable, 2, s'.current);
  }

  lemma GoodSizes(m: Machine, mem: Mem, refs: seq<nat>, ptable: seq<Proc>, lay: Layout)
    requires Good(m, mem, refs, ptable, lay)
    ensures |mem| == |refs| == m.npages
  {
  }

  lemma CostsNow(m: Machine, lay: Layout, s: Snapshot, s': Snapshot)
    requires s'.mem == s.mem && |s.ptable| == |s'.ptable| >= 3 && s'.ptable[1].pagetable == s.ptable[1].pagetable
    requires Keeps(m, s.mem, s.refs, s.ptable, s'.mem, s'.refs, s'.ptable, lay)
    ensures Costs(m, lay, s, s', multiset{})
  {
  }

  /** The uses are those of process 1, which has not changed its table. */
  lemma OwnedByFirst(mem: Mem, mem': Mem, ptable: seq<Proc>, ptable': seq<Proc>, lay: Layout)
    requires Only(ptable, {1}) && Only(ptable', {1}) && |ptable| == |ptable'|
               && ptable'[1].pagetable == ptable[1].pagetable
    requires Agree(mem, mem', Pages(mem, ptable[1].pagetable, 3))
    ensures Owned(mem', ptable', lay) == Owned(mem, ptable, lay)
  {
    UsesFrame(mem, mem', ptable[1].pagetable, lay);
    hide Uses, Pages;
    forall i | 0 <= i < |ptable|
      ensures OwnedBy(mem', ptable'[i], lay) == OwnedBy(mem, ptable[i], lay)
    {
    }
    assert Shares(mem', ptable', lay) == Shares(mem, ptable, lay);
  }

  /** Only the count of `f` has changed, and no page has become free. */
  ghost predicate OneMore(m: Machine, refs: seq<nat>, refs': seq<nat>, f: nat) {
    && |refs| == |refs'| == m.npages && f < m.npages && m.Allocatable(f) && refs[f] > 0
    && forall g :: 0 <= g < m.npages && m.Allocatable(g) ==> refs'[g] == refs[g] + if g == f then 1 else 0
  }

  lemma CostsOneMore(m: Machine, lay: Layout, s: Snapshot, s': Snapshot, f: nat)
    requires Costs(m, lay, s, s', multiset{f}) && Only(s.ptable, {1}) && Only(s'.ptable, {1})
    requires f < m.npages && m.Allocatable(f) && s.refs[f] > 0
    ensures OneMore(m, s.refs, s'.refs, f)
  {
    hide Owned, Pages;
    OwnedByFirst(s.mem, s'.mem, s.ptable, s'.ptable, lay);
  }

  lemma OneMoreFree(m: Machine, refs: seq<nat>, refs': seq<nat>, f: nat)
    requires OneMore(m, refs, refs', f)
    ensures FreeSet(m, refs') == FreeSet(m, refs)
  {
    forall g: nat
      ensures g in FreeSet(m, refs') <==> g in FreeSet(m, refs)
    {
      if g < m.npages && m.Allocatable(g) {
        assert refs'[g] == refs[g] + if g == f then 1 else 0;
      }
    }
  }

  /** The page that process 1 can only read is counted. */
  lemma ReadOnlyCounted(m: Machine, lay: Layout, s: Snapshot, v: nat, f: nat)
    requires Good(m, s.mem, s.refs, s.ptable, lay) && Ready(m, lay, s, v, f)
    ensures f < m.npages == |s.refs| && m.Allocatable(f) && s.refs[f] > 0
  {
    hide View, FreeSet, ForkNeeds;
    FirstLives(s.ptable);
    OldFrameCounted(m, s.mem, s.refs, s.ptable, lay, 1, v);
  }

  lemma StaysReady(m: Machine, lay: Layout, s: Snapshot, s': Snapshot, v: nat, f: nat)
    requires Ready(m, lay, s, v, f) && Only(s'.ptable, {1}) && s'.current == 1
    requires Costs(m, lay, s, s', multiset{f}) && OneMore(m, s.refs, s'.refs, f)
    ensures Ready(m, lay, s', v, f)
  {
    hide Loses, Pages, Only;
    UsesFrame(s.mem, s'.mem, s.ptable[1].pagetable, lay);
    OneMoreFree(m, s.refs, s'.refs, f);
  }

  /** The four steps of a round. */
  ghost predicate RoundSteps(steps: seq<Step>, v: nat) {
    && |steps| == 4 && steps[0].SysFork? && steps[1].SysYield? && steps[2].SysPageAlloc?
        && steps[2].addr == v * PAGESIZE
    && steps[3].SysExit?
  }

  /** One round leaves the shared page counted once more, and everything ready for the next. */
  lemma RoundCounts(m: Machine, lay: Layout, kernelPt: nat, steps: seq<Step>, trace: seq<Snapshot>, v: nat, f: nat)
    requires IsRun(m, lay, kernelPt, steps, trace) && RoundSteps(steps, v) && Ready(m, lay, trace[0], v, f)
    ensures Ready(m, lay, trace[4], v, f) && f < |trace[0].refs| && f < |trace[4].refs|
              && trace[4].refs[f] == trace[0].refs[f] + 1
  {
    hide Next, Good, KernelTable, Exact, Ready, Doubled, Costs, Only;
    assert Steady(m, lay, kernelPt, trace[0]) && Next(m, lay, kernelPt, trace[0], steps[0], trace[1]);
    assert Steady(m, lay, kernelPt, trace[1]) && Next(m, lay, kernelPt, trace[1], steps[1], trace[2]);
    assert Steady(m, lay, kernelPt, trace[2]) && Next(m, lay, kernelPt, trace[2], steps[2], trace[3]);
    assert Steady(m, lay, kernelPt, trace[3]) && Next(m, lay, kernelPt, trace[3], steps[3], trace[4]);
    RoundForks(m, lay, kernelPt, trace[0], steps[0].regs, trace[1], v, f);
    RoundYields(m, lay, kernelPt, trace[1], steps[1].regs, trace[2], v, f);
    RoundLoses(m, lay, kernelPt, trace[2], steps[2].regs, trace[3], v, f);
    RoundExits(m, lay, kernelPt, trace[3], steps[3].regs, trace[4]);
    CostsTrans(m, lay, trace[0], trace[1], trace[2], multiset{}, multiset{});
    CostsTrans(m, lay, trace[0], trace[2], trace[3], multiset{} + multiset{}, multiset{f});
    CostsTrans(m, lay, trace[0], trace[3], trace[4], multiset{} + multiset{} + multiset{f}, multiset{});
    assert multiset{} + multiset{} + multiset{f} + multiset{} == multiset{f};
    ReadyMeans(m, lay, trace[0], v, f);
    ReadOnlyCounted(m, lay, trace[0], v, f);
    CostsOneMore(m, lay, trace[0], trace[4], f);
    StaysReady(m, lay, trace[0], trace[4], v, f);
  }

  // ---------------------------------------------------------------------------------------
  // Many rounds

  /** The steps are `n` rounds. */
  ghost predicate Rounds(steps: seq<Step>, v: nat, n: nat) {
    |steps| == 4 * n && forall i: nat :: i < n ==> RoundSteps(steps[4 * i..4 * i + 4], v)
  }

  /** Each round counts the page once more. */
  lemma {:induction false} RoundsCount(m: Machine, lay: Layout, kernelPt: nat, steps: seq<Step>, trace: seq<Snapshot>,
                                       v: nat, f: nat, n: nat)
    requires IsRun(m, lay, kernelPt, steps, trace) && 4 * n <= |steps| && Ready(m, lay, trace[0], v, f)
    requires f < |trace[0].refs| && forall i: nat :: i < n ==> RoundSteps(steps[4 * i..4 * i + 4], v)
    ensures Ready(m, lay, trace[4 * n], v, f) && f < |trace[4 * n].refs| && trace[4 * n].refs[f] == trace[0].refs[f] + n
  {
    hide Ready, RoundSteps, Next, Steady;
    if n > 0 {
      var k := 4 * (n - 1);
      RoundsCount(m, lay, kernelPt, steps, trace, v, f, n - 1);
      PartOfRun(m, lay, kernelPt, steps, trace, k);
      RoundCounts(m, lay, kernelPt, steps[k..k + 4], trace[k..k + 5], v, f);
    }
  }

  lemma PartOfRun(m: Machine, lay: Layout, kernelPt: nat, steps: seq<Step>, trace: seq<Snapshot>, k: nat)
    requires IsRun(m, lay, kernelPt, steps, trace) && k + 4 <= |steps|
    ensures IsRun(m, lay, kernelPt, steps[k..k + 4], trace[k..k + 5])
  {
    hide Next, Steady;
  }

  /** From any state in which process 1 runs alone, with a page that it can only read and memory for a fork and one
      page more: after as many rounds as the counter has left, the next fork wraps it. */
  lemma WrapIsReached(m: Machine, lay: Layout, kernelPt: nat, steps: seq<Step>, trace: seq<Snapshot>, v: nat, f: nat,
                      n: nat, regs: Regs)
    requires IsRun(m, lay, kernelPt, steps, trace) && Rounds(steps, v, n) && Ready(m, lay, trace[0], v, f)
    requires f < |trace[0].refs| && trace[0].refs[f] + n + 1 == REFCOUNT_END
    ensures Wraps(m, lay, trace[4 * n], SysFork(regs))
  {
    hide Ready, RoundSteps, Next, Steady;
    RoundsCount(m, lay, kernelPt, steps, trace, v, f, n);
    ReadyWraps(m, lay, trace[4 * n], v, f, regs);
  }

  lemma ReadyWraps(m: Machine, lay: Layout, s: Snapshot, v: nat, f: nat, regs: Regs)
    requires Ready(m, lay, s, v, f) && f < |s.refs| && s.refs[f] + 1 == REFCOUNT_END
    ensures Wraps(m, lay, s, SysFork(regs))
  {
    hide FreeSet, Cost, View, LowestFree;
    SecondIsLowest(s.ptable, 2);
    var view := View(s.mem, s.ptable[1].pagetable, lay.memVirtual);
    CostMonotone(view, v + 1, lay.memVirtual, lay);
    assert WrapsAt(m, s.refs, view, lay, v);
  }
}
