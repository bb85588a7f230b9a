/** What a program finds when it is started: the pages that its segments ask for, and a stack.

The results are about addresses and accesses. Read-only segments can be read and not written,
    writable ones and the stack
can be written, and everything else of the process's region faults.
 */
module Programs {
  import opened Paging
  import opened PageTables
  import opened Allocator
  import opened VmIters
  import opened Spaces
  import opened Accounts
  import opened FreePages
  import opened PageAllocs
  import opened Setups
  import opened SetupPlans
  import opened UserMemory
  import opened Schedules
  import opened Runs

  /** What the process may do at an address. */
  datatype Access = NoAccess | ReadOnly | ReadWrite

  ghost predicate Allowed(mem: Mem, root: nat, va: nat, a: Access) {
    match a
    case NoAccess => !CanLoad(mem, root, va) && !CanStore(mem, root, va)
    case ReadOnly => CanLoad(mem, root, va) && !CanStore(mem, root, va)
    case ReadWrite => CanLoad(mem, root, va) && CanStore(mem, root, va)
  }

  /** What a program is to be allowed at an address of its region: what its segments ask for, and writing on its
      stack, the last page. */
  ghost predicate Asked(lay: Layout, requests: seq<Request>, va: nat, a: Access)
    requires lay.memVirtual > 0
  {
    var v := va / PAGESIZE;
    if v == lay.memVirtual - 1 then a == ReadWrite
    else if exists i :: 0 <= i < |requests| && requests[i].page == v then
      exists i :: 0 <= i < |requests| && requests[i].page == v
          && a == if requests[i].writable then ReadWrite else ReadOnly
    else a == NoAccess
  }

  /** No page is asked for twice, and there are pages for everything. */
  ghost predicate CanBeSetUp(m: Machine, lay: Layout, kernelPt: nat, s: Snapshot, requests: seq<Request>)
    requires lay.memVirtual > 0
  {
    && (forall i, j :: 0 <= i < j < |requests| ==> requests[i].page != requests[j].page)
    && (forall i :: 0 <= i < |requests| ==> requests[i].page != lay.memVirtual - 1)
    && |FreeSet(m, s.refs)| >= Needs(View(s.mem, kernelPt, lay.procStart),
                                     requests + [Request(lay.memVirtual - 1, true)])
  }

  lemma AllDistinct(requests: seq<Request>, r: Request)
    requires forall i, j :: 0 <= i < j < |requests| ==> requests[i].page != requests[j].page
    requires forall i :: 0 <= i < |requests| ==> requests[i].page != r.page
    ensures Distinct(requests + [r])
  {
  }

  lemma NeedsSome(low: seq<Translation>, requests: seq<Request>)
    ensures Needs(low, requests) > 0
  {
  }

  /** The access that the translation of a page gives to all its addresses. */
  lemma PageAccess(m: Machine, mem: Mem, root: nat, lay: Layout, va: nat)
    requires Space(m, mem, root, lay) && va < VA_END && va / PAGESIZE < lay.memVirtual
    ensures var u := View(mem, root, lay.memVirtual)[va / PAGESIZE];
            && (CanLoad(mem, root, va) <==> u.Mapped? && u.perm.p && u.perm.u)
            && (CanStore(mem, root, va) <==> u.Mapped? && u.perm.p && u.perm.u && u.perm.w)
  {
    hide Translate, Tidy, Uses, AllProper, Beyond, View;
    ViewAt(mem, root, lay.memVirtual, va / PAGESIZE);
    InPage(mem, root, va);
  }

  /** A view that was built as planned gives what was asked for. */
  lemma PlannedGives(view: seq<Translation>, low: seq<Translation>, requests: seq<Request>, lay: Layout, v: nat)
    requires 0 < lay.memVirtual && Planned(view, low, requests + [Request(lay.memVirtual - 1, true)], lay)
    requires |low| == lay.procStart <= v < lay.memVirtual
    ensures v == lay.memVirtual - 1 ==> view[v].Mapped? && view[v].perm.p && view[v].perm.u && view[v].perm.w
    ensures forall i :: 0 <= i < |requests| && requests[i].page == v ==>
              view[v].Mapped? && view[v].perm.p && view[v].perm.u && (view[v].perm.w <==> requests[i].writable)
    ensures v != lay.memVirtual - 1 && (forall i :: 0 <= i < |requests| ==> requests[i].page != v) ==>
              view[v] == Unmapped
  {
    var all := requests + [Request(lay.memVirtual - 1, true)];
    assert Granted(view, all[|requests|]);
    forall i | 0 <= i < |requests| && requests[i].page == v
      ensures view[v].Mapped? && view[v].perm.p && view[v].perm.u && (view[v].perm.w <==> requests[i].writable)
    {
      assert Granted(view, all[i]);
    }
  }

  /** After a setup that can be done, the process may do at each address of its region exactly what was asked for. */
  lemma SetupGrants(m: Machine, lay: Layout, kernelPt: nat, s: Snapshot, s': Snapshot, pid: nat, requests: seq<Request>,
                    initial: Regs, entry: Regs, va: nat, a: Access)
    requires Steady(m, lay, kernelPt, s) && Steady(m, lay, kernelPt, s')
    requires Enabled(lay, s, Setup(pid, requests, initial, entry)) && CanBeSetUp(m, lay, kernelPt, s, requests)
    requires Next(m, lay, kernelPt, s, Setup(pid, requests, initial, entry), s')
    requires lay.procStart * PAGESIZE <= va < VA_END && Asked(lay, requests, va, a)
    ensures s'.ptable == s.ptable[pid := Proc(pid, s'.ptable[pid].pagetable, Runnable, entry)]
              && s'.current == s.current
    ensures Allowed(s'.mem, s'.ptable[pid].pagetable, va, a)
  {
    hide Good, KernelTable, Exact, KeepsUsed, FreeSet, Needs, View, Planned, CanLoad, CanStore, Distinct;
    var root, v := s'.ptable[pid].pagetable, va / PAGESIZE;
    AllDistinct(requests, Request(lay.memVirtual - 1, true));
    NeedsSome(View(s.mem, kernelPt, lay.procStart), requests + [Request(lay.memVirtual - 1, true)]);
    assert Planned(View(s'.mem, root, lay.memVirtual), View(s.mem, kernelPt, lay.procStart),
                   requests + [Request(lay.memVirtual - 1, true)], lay);
    assert Live(s'.ptable, pid);
    IntactAt(m, s'.mem, s'.refs, s'.ptable, lay, pid);
    PageFromStart(lay, va);
    if v < lay.memVirtual {
      PageAccess(m, s'.mem, root, lay, va);
      PlannedGives(View(s'.mem, root, lay.memVirtual), View(s.mem, kernelPt, lay.procStart), requests, lay, v);
    } else {
      NothingBeyond(m, s'.mem, root, lay, va);
    }
  }

  lemma PageFromStart(lay: Layout, va: nat)
    requires lay.procStart * PAGESIZE <= va
    ensures lay.procStart <= va / PAGESIZE
  {
  }

  lemma NothingBeyond(m: Machine, mem: Mem, root: nat, lay: Layout, va: nat)
    requires Space(m, mem, root, lay) && va < VA_END && va / PAGESIZE >= lay.memVirtual
    ensures !CanLoad(mem, root, va) && !CanStore(mem, root, va)
  {
    hide Translate, Tidy, Uses, AllProper;
    assert lay.memVirtual * PAGESIZE <= va;
    assert Translate(mem, root, va) == Unmapped;
  }

  /** The first process, set up, started, and storing: where writing was asked for it finds the word afterwards, and
      anywhere else in its region the store breaks it. */
  lemma FirstStore(m: Machine, lay: Layout, kernelPt: nat, steps: seq<Step>, trace: seq<Snapshot>, a: Access)
    requires IsRun(m, lay, kernelPt, steps, trace) && |steps| == 3 && Steady(m, lay, kernelPt, trace[3])
    requires steps[0].Setup? && steps[0].pid == 1 && steps[1].Start? && steps[2].Store?
               && !Panics(m, lay, trace[2], steps[2])
    requires Enabled(lay, trace[0], steps[0]) && CanBeSetUp(m, lay, kernelPt, trace[0], steps[0].requests)
    requires lay.procStart * PAGESIZE <= steps[2].va < VA_END && Asked(lay, steps[0].requests, steps[2].va, a)
    ensures |trace[3].ptable| > 1 && trace[3].ptable[1].pagetable == trace[2].ptable[1].pagetable
    ensures if a == ReadWrite then
              && trace[3].ptable[1].state.Runnable? && trace[3].current == 1
              && Loaded(trace[3].mem, trace[3].ptable[1].pagetable, steps[2].va) == steps[2].word
            else trace[3].ptable[1].state.Broken? && trace[3].mem == trace[2].mem
  {
    hide Good, KernelTable, Exact, CanLoad, CanStore, Stored, Loaded, Asked, CanBeSetUp, SetUp, Picks;
    var va, word := steps[2].va, steps[2].word;
    assert Steady(m, lay, kernelPt, trace[0]) && Next(m, lay, kernelPt, trace[0], steps[0], trace[1]);
    assert Steady(m, lay, kernelPt, trace[1]) && Next(m, lay, kernelPt, trace[1], steps[1], trace[2]);
    assert Steady(m, lay, kernelPt, trace[2]) && Next(m, lay, kernelPt, trace[2], steps[2], trace[3]);
    SetupGrants(m, lay, kernelPt, trace[0], trace[1], 1, steps[0].requests, steps[0].initial, steps[0].entry, va, a);
    if a == ReadWrite {
      assert Live(trace[2].ptable, 1);
      StoreShows(m, trace[2].mem, trace[2].refs, trace[2].ptable, lay, 1, va, word, 1, va);
    }
  }

  /** With four pages free, `sys_page_alloc` gives its caller a page of zeros that it can write, at any page of its
      region. */
  lemma AllocGives(m: Machine, lay: Layout, kernelPt: nat, s: Snapshot, s': Snapshot, addr: nat, regs: Regs, va: nat)
    requires Steady(m, lay, kernelPt, s) && s.ptable[s.current].state.Runnable?
    requires addr % PAGESIZE == 0 && lay.procStart * PAGESIZE <= addr < lay.memVirtual * PAGESIZE
    requires addr <= va < addr + PAGESIZE && |FreeSet(m, s.refs)| >= 4
    requires Next(m, lay, kernelPt, s, SysPageAlloc(addr, regs), s')
    ensures s'.ptable == s.ptable[s.current := s.ptable[s.current].(regs := regs)] && s'.current == s.current
    ensures Allowed(s'.mem, s.ptable[s.current].pagetable, va, ReadWrite)
    ensures Loaded(s'.mem, s.ptable[s.current].pagetable, va) == ZERO
  {
    hide Good, Exact, KernelTable, SameTranslation, OnlyOwn, CanLoad, CanStore, Loaded, Loses, FreeSet, FreshCursor,
         NewMapping, Space, AllUsed;
    var t, root := Trapped(s, regs), s.ptable[s.current].pagetable;
    SomeFree(m, s.refs);
    assert PageTaken(m, lay, t, addr, s');
    var pa: nat :| PageAllocated(m, lay, t.mem, t.refs, t.ptable, t.current, addr, pa, s'.mem, s'.refs);
    assert Live(s'.ptable, t.current);
    IntactAt(m, s'.mem, s'.refs, s'.ptable, lay, t.current);
    CursorLevel(s.mem, root, addr);
    RegionPage(lay, addr, va);
    NewPageHolds(m, s'.mem, root, lay, pa, va);
  }

  lemma SomeFree(m: Machine, refs: seq<nat>)
    requires |FreeSet(m, refs)| > 0
    ensures !AllUsed(m, refs)
  {
    if AllUsed(m, refs) {
      NoneFree(m, refs);
    }
  }

  lemma CursorLevel(mem: Mem, root: nat, va: nat)
    ensures FreshCursor(mem, root, va).level <= 3
  {
  }

  lemma RegionPage(lay: Layout, addr: nat, va: nat)
    requires lay.Ok() && addr % PAGESIZE == 0 && addr < lay.memVirtual * PAGESIZE && addr <= va < addr + PAGESIZE
    ensures va / PAGESIZE == addr / PAGESIZE < lay.memVirtual && va < VA_END
  {
  }
}
