/** How `process_setup` builds the first address spaces.

Its allocations are not checked. `Raw` holds in any case; `Building` says that the accounts are kept.
 */
module Setups {
  import opened Paging
  import opened PageTables
  import opened Allocator
  import opened VmIters
  import opened Spaces
  import opened Accounts
  import opened Forks

  /** A page that a program needs. */
  datatype Request = Request(page: nat, writable: bool)

  function UserPerm(writable: bool): Flags {
    if writable then PTE_PWU else PTE_PU
  }

  /** The kernel's own table: in pages that the allocator never hands out and that are not the console, with low memory
      mapped to itself and only the console open to users. What it maps above low memory, large pages too, does not
      matter. */
  ghost predicate KernelTable(m: Machine, mem: Mem, kernelPt: nat, lay: Layout) {
    && TableInitialized(mem, kernelPt)
    && (forall f :: f in Pages(mem, kernelPt, 3) ==> f < m.npages && !m.Allocatable(f) && f != lay.console)
    && (forall v: nat :: v < lay.procStart ==> TidyAt(mem, kernelPt, PathOf(v * PAGESIZE)))
    && forall v :: 0 <= v < lay.procStart ==> LowPage(View(mem, kernelPt, lay.procStart)[v], v, lay)
  }

  ghost predicate LowPage(t: Translation, v: nat, lay: Layout) {
    t.Mapped? ==> t == Mapped(v * PAGESIZE, if v == lay.console then PTE_PWU else PTE_PW)
  }

  /** The new table is built in pages that were free, and nothing was ever freed. */
  ghost predicate Raw(m: Machine, k: Fork, mem: Mem, refs: seq<nat>) {
    && KeepsUsed(m, k.mem0, k.refs0, mem) && |refs| == m.npages
    && Tidy(mem, k.child) && NoDup(Pages(mem, k.child, 3))
    && (forall f :: f in Pages(mem, k.child, 3) ==> f < m.npages && m.Allocatable(f) && k.refs0[f] == 0 && refs[f] != 0)
    && forall f :: 0 <= f < m.npages ==> k.refs0[f] <= refs[f]
  }

  /** The accounts of the new process: all that it uses was free. */
  ghost predicate Building(m: Machine, k: Fork, lay: Layout, mem: Mem, refs: seq<nat>, extra: multiset<nat>) {
    && ChildSound(m, k, lay, mem) && Counts(m, k, lay, mem, refs, extra)
    && AllNew(k.refs0, Uses(mem, k.child, lay))
    && AllProper(View(mem, k.child, lay.memVirtual), lay)
  }

  ghost predicate AllNew(refs0: seq<nat>, uses: multiset<nat>) {
    forall f :: f in uses ==> f < |refs0| && refs0[f] == 0
  }

  /** What the finished view is to be: low memory as in the kernel's table, and the requested pages. */
  ghost predicate Planned(view: seq<Translation>, low: seq<Translation>, requests: seq<Request>, lay: Layout) {
    && |low| <= |view| == lay.memVirtual
    && (forall v :: 0 <= v < |low| ==> view[v] == low[v])
    && (forall i :: 0 <= i < |requests| ==> Granted(view, requests[i]))
    && (forall v :: |low| <= v < |view| && !Requested(requests, v) ==> view[v] == Unmapped)
  }

  ghost predicate Granted(view: seq<Translation>, r: Request) {
    r.page < |view| && view[r.page].Mapped? && view[r.page].perm == UserPerm(r.writable)
  }

  predicate Requested(requests: seq<Request>, v: nat) {
    exists i :: 0 <= i < |requests| && requests[i].page == v
  }

  ghost predicate Distinct(requests: seq<Request>) {
    forall i, j :: 0 <= i < j < |requests| ==> requests[i].page != requests[j].page
  }

  // ---------------------------------------------------------------------------------------

  lemma RawAfter(m: Machine, k: Fork, lay: Layout, mem: Mem, refs: seq<nat>, mem': Mem, refs': seq<nat>,
                 added: seq<nat>, view': seq<Translation>)
    requires Raw(m, k, mem, refs) && MapEffect(m, mem, refs, mem', refs', k.child, lay, added, view')
    ensures Raw(m, k, mem', refs')
  {
    forall f | f in Pages(mem', k.child, 3)
      ensures f < m.npages && m.Allocatable(f) && k.refs0[f] == 0 && refs'[f] != 0
    {
      OldOrAdded(mem, mem', k.child, added, f);
    }
  }

  /** A page may be taken in hand. */
  lemma RawTake(m: Machine, k: Fork, lay: Layout, mem: Mem, refs: seq<nat>, mem': Mem, refs': seq<nat>, f: nat)
    requires Raw(m, k, mem, refs) && m.Allocatable(f) && refs[f] == 0 && refs' == refs[f := 1]
    requires |mem'| == |mem| && forall g :: 0 <= g < |mem| && g != f ==> mem'[g] == mem[g]
    ensures Raw(m, k, mem', refs') && View(mem', k.child, lay.memVirtual) == View(mem, k.child, lay.memVirtual)
  {
    assert f !in Pages(mem, k.child, 3);
    UsesFrame(mem, mem', k.child, lay);
    TidyFrame(mem, mem', k.child);
  }

  lemma BuildTake(m: Machine, k: Fork, lay: Layout, mem: Mem, refs: seq<nat>, mem': Mem, refs': seq<nat>, f: nat)
    requires Building(m, k, lay, mem, refs, multiset{}) && m.Allocatable(f) && refs[f] == 0 && refs' == refs[f := 1]
    requires |mem'| == |mem| && forall g :: 0 <= g < |mem| && g != f ==> mem'[g] == mem[g]
    ensures Building(m, k, lay, mem', refs', multiset{f})
    ensures k.refs0[f] == 0 && Uses(mem', k.child, lay)[f] == 0
  {
    TakeAgrees(m, k, lay, mem, refs, mem', f);
    TakeCounts(m, k, lay, mem, refs, mem', refs', f);
    TakeSound(m, k, lay, mem, mem', f);
  }

  lemma NewStays(m: Machine, k: Fork, lay: Layout, mem: Mem, refs: seq<nat>, extra: multiset<nat>,
                 mem': Mem, refs': seq<nat>, added: seq<nat>, view': seq<Translation>, gain: multiset<nat>)
    requires ChildSound(m, k, lay, mem) && Counts(m, k, lay, mem, refs, extra)
               && AllNew(k.refs0, Uses(mem, k.child, lay))
    requires MapEffect(m, mem, refs, mem', refs', k.child, lay, added, view')
    requires Uses(mem', k.child, lay) == Uses(mem, k.child, lay) + multiset(added) + gain && AllNew(k.refs0, gain)
    ensures AllNew(k.refs0, Uses(mem', k.child, lay))
  {
    forall f | f in Uses(mem', k.child, lay)
      ensures f < |k.refs0| && k.refs0[f] == 0
    {
      assert f in Uses(mem, k.child, lay) || f in multiset(added) || f in gain;
      if f in multiset(added) {
        TakenWasFree(m, k, lay, mem, refs, extra, mem', refs', added, f);
      }
    }
  }

  /** Mapping page `v`, not mapped before, to `t`. */
  lemma BuildMap(m: Machine, k: Fork, lay: Layout, mem: Mem, refs: seq<nat>, extra: multiset<nat>, v: nat,
                 t: Translation,
                 mem': Mem, refs': seq<nat>, added: seq<nat>)
    requires v < lay.memVirtual && Building(m, k, lay, mem, refs, extra)
               && View(mem, k.child, lay.memVirtual)[v] == Unmapped
    requires MapEffect(m, mem, refs, mem', refs', k.child, lay, added, View(mem, k.child, lay.memVirtual)[v := t])
    requires Proper(t, v, lay) && NewPages(m, UserGain(t, v, lay), added, Uses(mem, k.child, lay))
    requires UserGain(t, v, lay) == extra && AllNew(k.refs0, extra)
    ensures Building(m, k, lay, mem', refs', multiset{})
  {
    hide Uses, UserGain, Tidy, Beyond, SameBeyond, KeepsUsed, NewPages;
    var view := View(mem, k.child, lay.memVirtual);
    UsesAfter(mem, mem', k.child, lay, v, t, multiset(added));
    SoundAfter(m, k, lay, mem, refs, extra, mem', refs', added, view[v := t], extra);
    assert Settles(refs', refs', extra, extra, multiset{});
    CountsSettle(m, k, lay, mem, refs, extra, mem', refs', added, view[v := t], extra, refs', multiset{});
    NewStays(m, k, lay, mem, refs, extra, mem', refs', added, view[v := t], extra);
  }

  lemma LowGain(t: Translation, v: nat, lay: Layout)
    requires lay.Ok() && v < lay.procStart && LowPage(t, v, lay)
    ensures Proper(t, v, lay) && UserGain(t, v, lay) == multiset{}
  {
    PageNumbers(v, v);
  }

  lemma UserPageGain(f: nat, v: nat, writable: bool, lay: Layout)
    requires lay.procStart <= v
    ensures var t := Mapped(f * PAGESIZE, UserPerm(writable)); Proper(t, v, lay) && UserGain(t, v, lay) == multiset{f}
  {
    PageNumbers(f, f);
  }

  // ---------------------------------------------------------------------------------------

  lemma EmptyPlan(view: seq<Translation>, lay: Layout)
    requires |view| == lay.memVirtual && forall w :: 0 <= w < lay.memVirtual ==> view[w] == Unmapped
    ensures Planned(view, [], [], lay)
  {
  }

  lemma PlanLow(view: seq<Translation>, low: seq<Translation>, t: Translation, lay: Layout)
    requires Planned(view, low, [], lay) && |low| < |view|
    ensures view[|low|] == Unmapped && Planned(view[|low| := t], low + [t], [], lay)
  {
    assert !Requested([], |low|);
  }

  lemma PlanUser(view: seq<Translation>, low: seq<Translation>, requests: seq<Request>, r: Request, t: Translation,
                 lay: Layout)
    requires Planned(view, low, requests, lay) && |low| <= r.page < |view| && !Requested(requests, r.page)
    requires t.Mapped? && t.perm == UserPerm(r.writable)
    ensures view[r.page] == Unmapped && Planned(view[r.page := t], low, requests + [r], lay)
  {
    var all := requests + [r];
    forall i | 0 <= i < |all|
      ensures Granted(view[r.page := t], all[i])
    {
      if i < |requests| {
        assert Granted(view, requests[i]);
      }
    }
    forall v | |low| <= v < |view| && !Requested(all, v)
      ensures view[r.page := t][v] == Unmapped
    {
      assert all[|requests|].page == r.page;
      forall i | 0 <= i < |requests|
        ensures requests[i].page != v
      {
        assert all[i].page != v;
      }
      assert !Requested(requests, v);
    }
  }

  // ---------------------------------------------------------------------------------------

  lemma BuiltPrivate(m: Machine, k: Fork, lay: Layout, mem: Mem, refs: seq<nat>)
    requires Building(m, k, lay, mem, refs, multiset{})
    ensures Private(mem, refs, k.child, lay)
  {
    var view := View(mem, k.child, lay.memVirtual);
    forall f | f in Pages(mem, k.child, 3)
      ensures f < |refs| && refs[f] == 1
    {
      TablePageUsed(mem, k.child, lay, f);
    }
    forall v | lay.procStart <= v < lay.memVirtual && Writable(view[v])
      ensures FrameIn(view[v]) < |refs| && refs[FrameIn(view[v])] == 1
    {
      assert Proper(view[v], v, lay);
      UserFrameListed(view, lay.procStart, lay.memVirtual, v);
      assert FrameIn(view[v]) in Uses(mem, k.child, lay);
    }
  }

  lemma BuiltLeavesPrivate(m: Machine, k: Fork, lay: Layout, mem: Mem, refs: seq<nat>)
    requires Good(m, k.mem0, k.refs0, k.ptable, lay) && Building(m, k, lay, mem, refs, multiset{})
    ensures LeavesPrivate(mem, k.ptable, lay, Uses(mem, k.child, lay))
  {
    forall j: nat, f: nat | Live(k.ptable, j) && f in Uses(mem, k.child, lay)
      ensures !PrivatePage(mem, k.ptable[j].pagetable, lay, f)
    {
      if PrivatePage(k.mem0, k.ptable[j].pagetable, lay, f) {
        PrivatePageCounted(m, k.mem0, k.refs0, k.ptable, lay, j, f);
      }
      LiveAgree(m, k.mem0, k.refs0, mem, k.ptable, lay, j);
      PrivatePageFrame(k.mem0, mem, k.ptable[j].pagetable, lay, f);
    }
  }

  /** A finished process may take its slot. */
  lemma FinishSetup(m: Machine, k: Fork, lay: Layout, mem: Mem, refs: seq<nat>, i: nat, p: Proc)
    requires Good(m, k.mem0, k.refs0, k.ptable, lay) && Building(m, k, lay, mem, refs, multiset{})
    requires 0 < i < |k.ptable| && k.ptable[i].state.Free? && !p.state.Free? && p.pagetable == k.child
    ensures Good(m, mem, refs, k.ptable[i := p], lay)
    ensures Keeps(m, k.mem0, k.refs0, k.ptable, mem, refs, k.ptable[i := p], lay)
  {
    hide Good, Keeps, LeavesPrivate, Raised, Uses;
    GoodFrame(m, k.mem0, k.refs0, mem, k.ptable, lay);
    BuiltPrivate(m, k, lay, mem, refs);
    BuiltLeavesPrivate(m, k, lay, mem, refs);
    CountsAreRaised(m, k, lay, mem, refs);
    AdmitKeepsGood(m, mem, k.refs0, refs, k.ptable, lay, i, p);
    KeepsTrans(m, k.mem0, k.refs0, k.ptable, mem, k.refs0, k.ptable, mem, refs, k.ptable[i := p], lay);
  }

  // ---------------------------------------------------------------------------------------

  lemma BeginBuilding(m: Machine, k: Fork, lay: Layout, mem: Mem, refs: seq<nat>)
    requires |k.mem0| == |k.refs0| == m.npages && m.Allocatable(k.child) && k.refs0[k.child] == 0
    requires mem == k.mem0[k.child := Filled(ZERO)] && refs == k.refs0[k.child := 1]
    ensures Raw(m, k, mem, refs) && Building(m, k, lay, mem, refs, multiset{})
    ensures Planned(View(mem, k.child, lay.memVirtual), [], [], lay)
  {
    EmptyTable(mem, k.child, lay);
    BeginSound(m, k, lay, mem);
    EmptyPlan(View(mem, k.child, lay.memVirtual), lay);
    assert NoDup([k.child]);
  }

  lemma StillUsed(m: Machine, mem: Mem, refs: seq<nat>, mem': Mem, refs': seq<nat>, root: nat, added: seq<nat>)
    requires AllUsed(m, refs) && Accounted(mem, refs, mem', refs', root, added)
    ensures AllUsed(m, refs')
  {
  }

  lemma HandIsNew(m: Machine, k: Fork, lay: Layout, mem: Mem, refs: seq<nat>, mem': Mem, refs': seq<nat>,
                  added: seq<nat>, pa: nat)
    requires |mem| == m.npages && Counts(m, k, lay, mem, refs, multiset{pa})
               && Accounted(mem, refs, mem', refs', k.child, added)
    requires m.Allocatable(pa) && k.refs0[pa] == 0 && Uses(mem, k.child, lay)[pa] == 0
    ensures NewPages(m, multiset{pa}, added, Uses(mem, k.child, lay)) && AllNew(k.refs0, multiset{pa})
  {
    HandNotAdded(m, k, lay, mem, refs, mem', refs', added, pa);
  }

  lemma MoreRequests(requests: seq<Request>, r: Request)
    ensures Distinct(requests + [r]) ==> Distinct(requests) && !Requested(requests, r.page)
  {
    var all := requests + [r];
    if Distinct(all) {
      forall i | 0 <= i < |requests|
        ensures requests[i].page != r.page
      {
        assert all[i].page != all[|requests|].page;
      }
      forall i, j | 0 <= i < j < |requests|
        ensures requests[i].page != requests[j].page
      {
        assert all[i].page != all[j].page;
      }
    }
  }

  /** The kernel's table is never written. */
  lemma KernelStays(m: Machine, mem0: Mem, refs0: seq<nat>, mem: Mem, kernelPt: nat, lay: Layout)
    requires KernelTable(m, mem0, kernelPt, lay) && KeepsUsed(m, mem0, refs0, mem)
    ensures KernelTable(m, mem, kernelPt, lay)
    ensures View(mem, kernelPt, lay.procStart) == View(mem0, kernelPt, lay.procStart)
    ensures Agree(mem0, mem, Pages(mem0, kernelPt, 3))
  {
    KernelFrame(m, mem0, mem, kernelPt, lay);
  }

  lemma KernelFrame(m: Machine, mem0: Mem, mem: Mem, kernelPt: nat, lay: Layout)
    requires KernelTable(m, mem0, kernelPt, lay) && Agree(mem0, mem, Pages(mem0, kernelPt, 3))
    ensures KernelTable(m, mem, kernelPt, lay)
    ensures View(mem, kernelPt, lay.procStart) == View(mem0, kernelPt, lay.procStart)
  {
    TranslateFrame(mem0, mem, kernelPt);
    assert SameTranslation(mem0, mem, kernelPt);
    SameView(mem0, mem, kernelPt, lay.procStart);
    InitializedFrame(mem0, mem, kernelPt);
    forall v: nat | v < lay.procStart
      ensures TidyAt(mem, kernelPt, PathOf(v * PAGESIZE))
    {
      TidyAtFrame(mem0, mem, kernelPt, PathOf(v * PAGESIZE));
    }
  }

  /** From every good state with a free page and a free slot, a process with an empty table in that page makes a good
      state: the invariant is not an empty promise. */
  lemma EmptyProcess(m: Machine, mem: Mem, refs: seq<nat>, ptable: seq<Proc>, lay: Layout, root: nat, i: nat, p: Proc)
    requires Good(m, mem, refs, ptable, lay) && m.Allocatable(root) && refs[root] == 0
    requires 0 < i < |ptable| && ptable[i].state.Free? && !p.state.Free? && p.pagetable == root
    ensures Good(m, mem[root := Filled(ZERO)], refs[root := 1], ptable[i := p], lay)
    ensures Exact(m, mem, refs, ptable, lay) ==>
              Exact(m, mem[root := Filled(ZERO)], refs[root := 1], ptable[i := p], lay)
  {
    var k := Fork(mem, refs, ptable, 0, root);
    BeginBuilding(m, k, lay, mem[root := Filled(ZERO)], refs[root := 1]);
    FinishSetup(m, k, lay, mem[root := Filled(ZERO)], refs[root := 1], i, p);
    KeepsExact(m, mem, refs, ptable, mem[root := Filled(ZERO)], refs[root := 1], ptable[i := p], lay);
  }
}
