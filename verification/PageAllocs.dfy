/** What `syscall_page_alloc` does to the accounts.

It never undoes the invariant, but it loses a page when something was mapped at the address before, or when
the tables for the new page cannot be built.
 */
module PageAllocs {
  import opened Paging
  import opened PageTables
  import opened Allocator
  import opened VmIters
  import opened Spaces
  import opened FreePages
  import opened Accounts
  import opened Forks

  /** Memory differs only in table pages of `root` and in pages that were free. */
  ghost predicate OnlyOwn(m: Machine, mem: Mem, refs: seq<nat>, mem': Mem, root: nat) {
    && |mem'| == |mem| == |refs| == m.npages
    && forall f :: 0 <= f < |mem| && f !in Pages(mem, root, 3) && !(m.Allocatable(f) && refs[f] == 0) ==>
        mem'[f] == mem[f]
  }

  /** The tables of the other processes are not touched. */
  lemma OthersAgree(m: Machine, mem: Mem, refs: seq<nat>, ptable: seq<Proc>, lay: Layout, i: nat, mem': Mem, j: nat)
    requires Good(m, mem, refs, ptable, lay) && Live(ptable, i) && OnlyOwn(m, mem, refs, mem', ptable[i].pagetable)
    requires Live(ptable, j) && j != i
    ensures Agree(mem, mem', Pages(mem, ptable[j].pagetable, 3))
  {
    hide Good, Uses, Pages;
    forall f | f in Pages(mem, ptable[j].pagetable, 3)
      ensures f < m.npages && mem'[f] == mem[f]
    {
      OthersTable(m, mem, refs, ptable, lay, i, j, f);
    }
  }

  /** A table page of one process is counted once, and is no table page of another. */
  lemma OthersTable(m: Machine, mem: Mem, refs: seq<nat>, ptable: seq<Proc>, lay: Layout, i: nat, j: nat, f: nat)
    requires Good(m, mem, refs, ptable, lay) && Live(ptable, i) && Live(ptable, j) && j != i
    requires f in Pages(mem, ptable[j].pagetable, 3)
    ensures f < m.npages == |refs| && refs[f] == 1 && f !in Pages(mem, ptable[i].pagetable, 3)
  {
    hide Owned, Pages, Space;
    IntactAt(m, mem, refs, ptable, lay, j);
    TablePageUsed(mem, ptable[j].pagetable, lay, f);
    SingleUse(m, mem, refs, ptable, lay, j, i, f);
    if f in Pages(mem, ptable[i].pagetable, 3) {
      TablePageUsed(mem, ptable[i].pagetable, lay, f);
    }
  }

  /** All uses together move as those of the process that changes its table. */
  lemma OwnedMoves(m: Machine, mem: Mem, refs: seq<nat>, ptable: seq<Proc>, lay: Layout, i: nat, mem': Mem, f: nat)
    requires Good(m, mem, refs, ptable, lay) && Live(ptable, i) && OnlyOwn(m, mem, refs, mem', ptable[i].pagetable)
    ensures Owned(mem', ptable, lay)[f] + Uses(mem, ptable[i].pagetable, lay)[f]
         == Owned(mem, ptable, lay)[f] + Uses(mem', ptable[i].pagetable, lay)[f]
  {
    hide Owned, Uses, Good, OnlyOwn;
    var rest := ptable[i := ptable[i].(state := Free)];
    OwnedUpdate(mem, ptable, lay, i, rest[i]);
    OwnedUpdate(mem', ptable, lay, i, rest[i]);
    forall j: nat | Live(rest, j)
      ensures Agree(mem, mem', Pages(mem, rest[j].pagetable, 3))
    {
      assert Live(ptable, j) && j != i;
      OthersAgree(m, mem, refs, ptable, lay, i, mem', j);
    }
    LiveOwned(mem, mem', rest, lay);
    SumAt(Owned(mem, rest, lay), Uses(mem, ptable[i].pagetable, lay), Owned(mem, ptable, lay), f);
    SumAt(Owned(mem', rest, lay), Uses(mem', ptable[i].pagetable, lay), Owned(mem', ptable, lay), f);
  }

  lemma SumAt(a: multiset<nat>, x: multiset<nat>, b: multiset<nat>, f: nat)
    requires a + x == b + multiset{}
    ensures a[f] + x[f] == b[f]
  {
    assert (a + x)[f] == (b + multiset{})[f];
  }

  // ---------------------------------------------------------------------------------------
  // The call itself

  /** The state between `memset` and `try_map`: page `pa`, free in `refs0`, is counted and zeroed. */
  ghost predicate Taken(m: Machine, mem0: Mem, refs0: seq<nat>, pa: nat, mem1: Mem, refs1: seq<nat>) {
    && |mem0| == |refs0| == m.npages && m.Allocatable(pa) && refs0[pa] == 0
    && mem1 == mem0[pa := Filled(ZERO)] && refs1 == refs0[pa := 1]
  }

  /** A page that was free is in no live process's account. */
  lemma TakenIsNew(m: Machine, mem: Mem, refs: seq<nat>, ptable: seq<Proc>, lay: Layout, i: nat, f: nat)
    requires Good(m, mem, refs, ptable, lay) && Live(ptable, i) && f < m.npages && refs[f] == 0
    ensures f !in Pages(mem, ptable[i].pagetable, 3) && Uses(mem, ptable[i].pagetable, lay)[f] == 0
  {
    var root := ptable[i].pagetable;
    if f in Pages(mem, root, 3) {
      TablePageUsed(mem, root, lay, f);
    }
    UsesCounted(m, mem, refs, ptable, lay, i);
  }

  lemma SpaceNoDup(m: Machine, mem: Mem, root: nat, lay: Layout)
    requires Space(m, mem, root, lay)
    ensures NoDup(Pages(mem, root, 3))
  {
    forall f
      ensures multiset(Pages(mem, root, 3))[f] <= 1
    {
      assert multiset(Pages(mem, root, 3))[f] <= Uses(mem, root, lay)[f];
    }
  }

  /** Taking the page changes nothing for the caller's table. */
  lemma TakenKeepsTable(m: Machine, mem0: Mem, refs0: seq<nat>, ptable: seq<Proc>, lay: Layout, i: nat, pa: nat,
                        mem1: Mem, refs1: seq<nat>, va: nat)
    requires Good(m, mem0, refs0, ptable, lay) && Live(ptable, i) && Taken(m, mem0, refs0, pa, mem1, refs1)
    ensures var root := ptable[i].pagetable;
            && FreshCursor(mem1, root, va) == FreshCursor(mem0, root, va)
                && Pages(mem1, root, 3) == Pages(mem0, root, 3)
            && View(mem1, root, lay.memVirtual) == View(mem0, root, lay.memVirtual)
            && Tidy(mem1, root) && NoDup(Pages(mem1, root, 3))
            && (forall f :: f in Pages(mem1, root, 3) ==> f < m.npages && refs1[f] != 0)
  {
    var root := ptable[i].pagetable;
    IntactAt(m, mem0, refs0, ptable, lay, i);
    TakenAgrees(m, mem0, refs0, ptable, lay, i, pa, mem1, refs1);
    UsesFrame(mem0, mem1, root, lay);
    TidyFrame(mem0, mem1, root);
    SpaceNoDup(m, mem0, root, lay);
    CursorFrame(mem0, mem1, root, va);
  }

  lemma TakenAgrees(m: Machine, mem0: Mem, refs0: seq<nat>, ptable: seq<Proc>, lay: Layout, i: nat, pa: nat, mem1: Mem,
                    refs1: seq<nat>)
    requires Good(m, mem0, refs0, ptable, lay) && Live(ptable, i) && Taken(m, mem0, refs0, pa, mem1, refs1)
    ensures Agree(mem0, mem1, Pages(mem0, ptable[i].pagetable, 3))
    ensures forall f :: f in Pages(mem0, ptable[i].pagetable, 3) ==> f < m.npages && refs1[f] != 0
  {
    IntactAt(m, mem0, refs0, ptable, lay, i);
    TakenIsNew(m, mem0, refs0, ptable, lay, i, pa);
  }

  /** The end of the call: `try_map` linked the pages `added`, and the view of the caller is `view'`. */
  ghost predicate Ended(m: Machine, lay: Layout, mem0: Mem, refs0: seq<nat>, root: nat, pa: nat, mem1: Mem,
                        refs1: seq<nat>,
                        mem2: Mem, refs2: seq<nat>, added: seq<nat>, view': seq<Translation>)
  {
    && Taken(m, mem0, refs0, pa, mem1, refs1) && Pages(mem1, root, 3) == Pages(mem0, root, 3)
    && MapEffect(m, mem1, refs1, mem2, refs2, root, lay, added, view')
  }

  /** Pages are counted as they are taken. */
  lemma EndedCounts(m: Machine, lay: Layout, mem0: Mem, refs0: seq<nat>, root: nat, pa: nat, mem1: Mem, refs1: seq<nat>,
                    mem2: Mem, refs2: seq<nat>, added: seq<nat>, view': seq<Translation>)
    requires Ended(m, lay, mem0, refs0, root, pa, mem1, refs1, mem2, refs2, added, view')
    ensures |refs2| == m.npages && pa !in added
    ensures forall f :: f in added ==> f < m.npages && refs0[f] == 0 && multiset(added)[f] == 1
    ensures forall f :: 0 <= f < m.npages ==> refs2[f] == refs0[f] + multiset(added)[f] + multiset{pa}[f]
    ensures OnlyOwn(m, mem0, refs0, mem2, root)
  {
    AddedDistinct(mem1, mem2, root, added);
    forall f | f in added
      ensures f < m.npages && refs0[f] == 0 && multiset(added)[f] == 1
    {
      assert refs1[f] == 0;
      assert f in multiset(added) && multiset(added)[f] <= 1;
    }
    forall f | 0 <= f < m.npages
      ensures refs2[f] == refs0[f] + multiset(added)[f] + multiset{pa}[f]
    {
      assert f in multiset(added) <==> f in added;
    }
  }

  /** The exchange of uses at page `v`. */
  lemma EndedUses(m: Machine, lay: Layout, mem0: Mem, refs0: seq<nat>, root: nat, pa: nat, mem1: Mem, refs1: seq<nat>,
                  mem2: Mem, refs2: seq<nat>, added: seq<nat>, v: nat, t: Translation)
    requires lay.procStart <= v < lay.memVirtual
    requires Ended(m, lay, mem0, refs0, root, pa, mem1, refs1, mem2, refs2, added,
                   View(mem0, root, lay.memVirtual)[v := t])
    ensures forall f: nat :: Uses(mem2, root, lay)[f] + UserFrame(View(mem0, root, lay.memVirtual)[v])[f]
                          == Uses(mem0, root, lay)[f] + multiset(added)[f] + UserFrame(t)[f]
  {
    var view, view' := View(mem0, root, lay.memVirtual), View(mem2, root, lay.memVirtual);
    forall f: nat
      ensures Uses(mem2, root, lay)[f] + UserFrame(view[v])[f]
                == Uses(mem0, root, lay)[f] + multiset(added)[f] + UserFrame(t)[f]
    {
      UserFramesUpdateAt(view, view', lay.procStart, lay.memVirtual, v, t, f);
      TableSumAt(multiset(Pages(mem2, root, 3)), multiset(Pages(mem0, root, 3)), multiset(added), f);
    }
  }

  lemma TableSumAt(a: multiset<nat>, b: multiset<nat>, c: multiset<nat>, f: nat)
    requires a == b + c
    ensures a[f] == b[f] + c[f]
  {
  }

  /** The frame of the new mapping. */
  ghost function NewMapping(pa: nat): Translation {
    Mapped(pa * PAGESIZE, PTE_PWU)
  }

  lemma NewFrame(pa: nat)
    ensures FrameIn(NewMapping(pa)) == pa && UserFrame(NewMapping(pa)) == multiset{pa}
    ensures User(NewMapping(pa)) && Writable(NewMapping(pa))
  {
    PageNumbers(pa, pa);
  }

  lemma FillProper(view: seq<Translation>, lay: Layout, v: nat, pa: nat)
    requires AllProper(view, lay) && lay.procStart <= v < |view|
    ensures AllProper(view[v := NewMapping(pa)], lay)
  {
    NewFrame(pa);
  }

  lemma FillBeyond(m: Machine, lay: Layout, mem0: Mem, refs0: seq<nat>, root: nat, pa: nat, mem1: Mem, refs1: seq<nat>,
                   mem2: Mem, refs2: seq<nat>, added: seq<nat>, view': seq<Translation>)
    requires Ended(m, lay, mem0, refs0, root, pa, mem1, refs1, mem2, refs2, added, view')
    requires Beyond(mem0, root, lay) && forall f :: 0 <= f < m.npages ==> Uses(mem0, root, lay)[f] <= refs0[f]
    ensures Beyond(mem2, root, lay)
  {
    if pa in Pages(mem0, root, 3) {
      TablePageUsed(mem0, root, lay, pa);
    }
    BeyondFrame(mem0, mem1, root, lay);
    BeyondStays(mem1, mem2, root, lay);
  }

  lemma OldFrameCounted(m: Machine, mem: Mem, refs: seq<nat>, ptable: seq<Proc>, lay: Layout, i: nat, v: nat)
    requires Good(m, mem, refs, ptable, lay) && Live(ptable, i) && lay.procStart <= v < lay.memVirtual
    requires View(mem, ptable[i].pagetable, lay.memVirtual)[v].Mapped?
    ensures var t := View(mem, ptable[i].pagetable, lay.memVirtual)[v];
            User(t) && m.Allocatable(FrameIn(t)) && refs[FrameIn(t)] > 0 && UserFrame(t) == multiset{FrameIn(t)}
  {
    var view := View(mem, ptable[i].pagetable, lay.memVirtual);
    IntactAt(m, mem, refs, ptable, lay, i);
    assert Proper(view[v], v, lay);
    UserFrameListed(view, lay.procStart, lay.memVirtual, v);
    assert FrameIn(view[v]) in Uses(mem, ptable[i].pagetable, lay);
    UsesCounted(m, mem, refs, ptable, lay, i);
  }

  /** What the caller has at page `v` after the call: the new page, or as before. */
  ghost function AfterCall(view: seq<Translation>, v: nat, pa: nat, mapped: bool): Translation
    requires v < |view|
  {
    if mapped then NewMapping(pa) else view[v]
  }

  /** What the call loses: the page that was mapped before, if any, or the new page if it cannot be mapped. */
  ghost function Lost(view: seq<Translation>, v: nat, pa: nat, mapped: bool): multiset<nat>
    requires v < |view|
  {
    if mapped then UserFrame(view[v]) else multiset{pa}
  }

  /** The call, for process `i` at page `v`. */
  ghost predicate Called(m: Machine, lay: Layout, mem0: Mem, refs0: seq<nat>, ptable: seq<Proc>, i: nat, pa: nat,
                         mem1: Mem, refs1: seq<nat>, mem2: Mem, refs2: seq<nat>, added: seq<nat>, v: nat, mapped: bool)
  {
    && Good(m, mem0, refs0, ptable, lay) && Live(ptable, i) && lay.procStart <= v < lay.memVirtual
    && var view := View(mem0, ptable[i].pagetable, lay.memVirtual);
       Ended(m, lay, mem0, refs0, ptable[i].pagetable, pa, mem1, refs1, mem2, refs2, added,
             view[v := AfterCall(view, v, pa, mapped)])
  }

  lemma CalledNow(m: Machine, lay: Layout, mem0: Mem, refs0: seq<nat>, ptable: seq<Proc>, i: nat, pa: nat,
                  mem1: Mem, refs1: seq<nat>, mem2: Mem, refs2: seq<nat>, added: seq<nat>, v: nat, mapped: bool)
    requires Good(m, mem0, refs0, ptable, lay) && Live(ptable, i) && lay.procStart <= v < lay.memVirtual
    requires var view := View(mem0, ptable[i].pagetable, lay.memVirtual);
             Ended(m, lay, mem0, refs0, ptable[i].pagetable, pa, mem1, refs1, mem2, refs2, added,
                   view[v := AfterCall(view, v, pa, mapped)])
    ensures Called(m, lay, mem0, refs0, ptable, i, pa, mem1, refs1, mem2, refs2, added, v, mapped)
  {
  }

  /** The caller's uses afterwards. */
  lemma CalledUses(m: Machine, lay: Layout, mem0: Mem, refs0: seq<nat>, ptable: seq<Proc>, i: nat, pa: nat,
                   mem1: Mem, refs1: seq<nat>, mem2: Mem, refs2: seq<nat>, added: seq<nat>, v: nat, mapped: bool,
                       f: nat)
    requires Called(m, lay, mem0, refs0, ptable, i, pa, mem1, refs1, mem2, refs2, added, v, mapped)
    ensures var root, view := ptable[i].pagetable, View(mem0, ptable[i].pagetable, lay.memVirtual);
            Uses(mem2, root, lay)[f] + UserFrame(view[v])[f]
            == Uses(mem0, root, lay)[f] + multiset(added)[f] + if mapped then multiset{pa}[f] else UserFrame(view[v])[f]
  {
    hide Uses, Good, Ended;
    var view := View(mem0, ptable[i].pagetable, lay.memVirtual);
    NewFrame(pa);
    EndedUses(m, lay, mem0, refs0, ptable[i].pagetable, pa, mem1, refs1, mem2, refs2, added, v,
              AfterCall(view, v, pa, mapped));
  }

  /** Every page that the kernel took for the call was free, and is taken once. */
  lemma CalledCounts(m: Machine, lay: Layout, mem0: Mem, refs0: seq<nat>, ptable: seq<Proc>, i: nat, pa: nat,
                     mem1: Mem, refs1: seq<nat>, mem2: Mem, refs2: seq<nat>, added: seq<nat>, v: nat, mapped: bool,
                         f: nat)
    requires Called(m, lay, mem0, refs0, ptable, i, pa, mem1, refs1, mem2, refs2, added, v, mapped)
    ensures |mem0| == |refs0| == |mem2| == |refs2| == m.npages && OnlyOwn(m, mem0, refs0, mem2, ptable[i].pagetable)
    ensures m.Allocatable(pa) && pa < m.npages && refs0[pa] == 0
    ensures var n := multiset(added)[f] + multiset{pa}[f];
            && n <= 1
            && (f < m.npages ==> refs2[f] == refs0[f] + n)
            && (n == 1 ==>
                f < m.npages && m.Allocatable(f) && refs0[f] == 0
                && Uses(mem0, ptable[i].pagetable, lay)[f] == 0)
  {
    hide Uses, Good, Pages;
    var root, view := ptable[i].pagetable, View(mem0, ptable[i].pagetable, lay.memVirtual);
    EndedCounts(m, lay, mem0, refs0, root, pa, mem1, refs1, mem2, refs2, added,
                view[v := AfterCall(view, v, pa, mapped)]);
    assert f in multiset(added) <==> f in added;
    if f in added || f == pa {
      TakenIsNew(m, mem0, refs0, ptable, lay, i, f);
    }
  }

  /** Exactly what the call loses. */
  lemma CallLoses(m: Machine, lay: Layout, mem0: Mem, refs0: seq<nat>, ptable: seq<Proc>, i: nat, pa: nat,
                  mem1: Mem, refs1: seq<nat>, mem2: Mem, refs2: seq<nat>, added: seq<nat>, v: nat, mapped: bool)
    requires Called(m, lay, mem0, refs0, ptable, i, pa, mem1, refs1, mem2, refs2, added, v, mapped)
    ensures Loses(m, mem0, refs0, ptable, mem2, refs2, ptable, lay,
                  Lost(View(mem0, ptable[i].pagetable, lay.memVirtual), v, pa, mapped))
  {
    hide Uses, Owned, Ended, OnlyOwn, Good;
    CalledCounts(m, lay, mem0, refs0, ptable, i, pa, mem1, refs1, mem2, refs2, added, v, mapped, 0);
    forall f | 0 <= f < m.npages && m.Allocatable(f)
      ensures refs2[f] + Owned(mem0, ptable, lay)[f]
           == refs0[f] + Owned(mem2, ptable, lay)[f] + Lost(View(mem0, ptable[i].pagetable, lay.memVirtual), v, pa,
                                                            mapped)[f]
    {
      CalledUses(m, lay, mem0, refs0, ptable, i, pa, mem1, refs1, mem2, refs2, added, v, mapped, f);
      CalledCounts(m, lay, mem0, refs0, ptable, i, pa, mem1, refs1, mem2, refs2, added, v, mapped, f);
      OwnedMoves(m, mem0, refs0, ptable, lay, i, mem2, f);
    }
  }

  /** The pages that are lost are the allocator's. */
  lemma LostPages(m: Machine, lay: Layout, mem0: Mem, refs0: seq<nat>, ptable: seq<Proc>, i: nat, pa: nat,
                  mem1: Mem, refs1: seq<nat>, mem2: Mem, refs2: seq<nat>, added: seq<nat>, v: nat, mapped: bool)
    requires Called(m, lay, mem0, refs0, ptable, i, pa, mem1, refs1, mem2, refs2, added, v, mapped)
    ensures var view := View(mem0, ptable[i].pagetable, lay.memVirtual);
            && (forall f :: f in Lost(view, v, pa, mapped) ==> f < m.npages && m.Allocatable(f))
            && (Lost(view, v, pa, mapped) == multiset{} <==> mapped && view[v] == Unmapped)
  {
    hide Uses, Ended, Good;
    CalledCounts(m, lay, mem0, refs0, ptable, i, pa, mem1, refs1, mem2, refs2, added, v, mapped, 0);
    if View(mem0, ptable[i].pagetable, lay.memVirtual)[v].Mapped? {
      OldFrameCounted(m, mem0, refs0, ptable, lay, i, v);
    }
  }

  /** The caller's address space stays one. */
  lemma CalledSpace(m: Machine, lay: Layout, mem0: Mem, refs0: seq<nat>, ptable: seq<Proc>, i: nat, pa: nat,
                    mem1: Mem, refs1: seq<nat>, mem2: Mem, refs2: seq<nat>, added: seq<nat>, v: nat, mapped: bool)
    requires Called(m, lay, mem0, refs0, ptable, i, pa, mem1, refs1, mem2, refs2, added, v, mapped)
    ensures Space(m, mem2, ptable[i].pagetable, lay)
  {
    hide Uses, Good, OnlyOwn;
    var root := ptable[i].pagetable;
    var view, view' := View(mem0, root, lay.memVirtual), View(mem2, root, lay.memVirtual);
    IntactAt(m, mem0, refs0, ptable, lay, i);
    UsesCounted(m, mem0, refs0, ptable, lay, i);
    forall f: nat
      ensures Uses(mem2, root, lay)[f] <= 1 && (f in Uses(mem2, root, lay) ==> m.Allocatable(f))
    {
      CalledUses(m, lay, mem0, refs0, ptable, i, pa, mem1, refs1, mem2, refs2, added, v, mapped, f);
      CalledCounts(m, lay, mem0, refs0, ptable, i, pa, mem1, refs1, mem2, refs2, added, v, mapped, f);
      SingleOrNew(Uses(mem0, root, lay), Uses(mem2, root, lay), f);
    }
    CalledProper(view, lay, v, pa, mapped);
    FillBeyond(m, lay, mem0, refs0, root, pa, mem1, refs1, mem2, refs2, added, view');
  }

  lemma SingleOrNew(uses: multiset<nat>, uses': multiset<nat>, f: nat)
    ensures f in uses' <==> uses'[f] > 0
    ensures f in uses <==> uses[f] > 0
  {
  }

  lemma CalledProper(view: seq<Translation>, lay: Layout, v: nat, pa: nat, mapped: bool)
    requires AllProper(view, lay) && lay.procStart <= v < |view|
    ensures AllProper(view[v := AfterCall(view, v, pa, mapped)], lay)
  {
    FillProper(view, lay, v, pa);
    assert view[v := view[v]] == view;
  }

  lemma CalledPrivate(m: Machine, lay: Layout, mem0: Mem, refs0: seq<nat>, ptable: seq<Proc>, i: nat, pa: nat,
                      mem1: Mem, refs1: seq<nat>, mem2: Mem, refs2: seq<nat>, added: seq<nat>, v: nat, mapped: bool)
    requires Called(m, lay, mem0, refs0, ptable, i, pa, mem1, refs1, mem2, refs2, added, v, mapped)
    ensures Private(mem2, refs2, ptable[i].pagetable, lay)
  {
    hide Uses, Good, OnlyOwn;
    var root := ptable[i].pagetable;
    var view, view' := View(mem0, root, lay.memVirtual), View(mem2, root, lay.memVirtual);
    IntactAt(m, mem0, refs0, ptable, lay, i);
    NewFrame(pa);
    forall f | f in Pages(mem2, root, 3)
      ensures f < |refs2| && refs2[f] == 1
    {
      OldOrAdded(mem1, mem2, root, added, f);
      assert f in multiset(added) <==> f in added;
      CalledCounts(m, lay, mem0, refs0, ptable, i, pa, mem1, refs1, mem2, refs2, added, v, mapped, f);
    }
    forall w | lay.procStart <= w < lay.memVirtual && Writable(view'[w])
      ensures FrameIn(view'[w]) < |refs2| && refs2[FrameIn(view'[w])] == 1
    {
      assert view'[w] == (if w == v then AfterCall(view, v, pa, mapped) else view[w]);
      CalledCounts(m, lay, mem0, refs0, ptable, i, pa, mem1, refs1, mem2, refs2, added, v, mapped, FrameIn(view'[w]));
    }
  }

  /** The other processes stay intact. */
  lemma CalledOthers(m: Machine, lay: Layout, mem0: Mem, refs0: seq<nat>, ptable: seq<Proc>, i: nat, pa: nat,
                     mem1: Mem, refs1: seq<nat>, mem2: Mem, refs2: seq<nat>, added: seq<nat>, v: nat, mapped: bool,
                         j: nat)
    requires Called(m, lay, mem0, refs0, ptable, i, pa, mem1, refs1, mem2, refs2, added, v, mapped) && Live(ptable, j)
               && j != i
    ensures Intact(m, mem2, refs2, ptable[j].pagetable, lay) && SameTranslation(mem0, mem2, ptable[j].pagetable)
  {
    hide Uses, Good, OnlyOwn, Space, SameTranslation, Pages, Ended;
    var root, view := ptable[j].pagetable, View(mem0, ptable[j].pagetable, lay.memVirtual);
    CalledCounts(m, lay, mem0, refs0, ptable, i, pa, mem1, refs1, mem2, refs2, added, v, mapped, 0);
    OthersAgree(m, mem0, refs0, ptable, lay, i, mem2, j);
    OthersTranslate(mem0, mem2, root);
    IntactAt(m, mem0, refs0, ptable, lay, j);
    forall f: nat | f < m.npages && refs0[f] == 1
      ensures refs2[f] == 1
    {
      CalledCounts(m, lay, mem0, refs0, ptable, i, pa, mem1, refs1, mem2, refs2, added, v, mapped, f);
    }
    PrivateAlso(mem0, refs0, refs2, root, lay);
    IntactFrame(m, mem0, mem2, refs2, root, lay);
  }

  lemma OthersTranslate(mem: Mem, mem': Mem, root: nat)
    requires Agree(mem, mem', Pages(mem, root, 3))
    ensures SameTranslation(mem, mem', root)
  {
    TranslateFrame(mem, mem', root);
  }

  lemma PrivateAlso(mem: Mem, refs: seq<nat>, refs': seq<nat>, root: nat, lay: Layout)
    requires Private(mem, refs, root, lay) && |refs'| == |refs|
    requires forall f: nat :: f < |refs| && refs[f] == 1 ==> refs'[f] == 1
    ensures Private(mem, refs', root, lay)
  {
    hide Pages, View;
  }

  /** Whatever was mapped before, and whether or not the tables can be built: a page allocation keeps the invariant. */
  lemma CallKeepsGood(m: Machine, lay: Layout, mem0: Mem, refs0: seq<nat>, ptable: seq<Proc>, i: nat, pa: nat,
                      mem1: Mem, refs1: seq<nat>, mem2: Mem, refs2: seq<nat>, added: seq<nat>, v: nat, mapped: bool)
    requires Called(m, lay, mem0, refs0, ptable, i, pa, mem1, refs1, mem2, refs2, added, v, mapped)
    ensures Good(m, mem2, refs2, ptable, lay)
  {
    hide Uses, Owned, OnlyOwn, Space, Private, Loses;
    CallLoses(m, lay, mem0, refs0, ptable, i, pa, mem1, refs1, mem2, refs2, added, v, mapped);
    LostPages(m, lay, mem0, refs0, ptable, i, pa, mem1, refs1, mem2, refs2, added, v, mapped);
    LosesExact(m, mem0, refs0, ptable, mem2, refs2, ptable, lay,
               Lost(View(mem0, ptable[i].pagetable, lay.memVirtual), v, pa, mapped));
    forall j: nat | Live(ptable, j)
      ensures Intact(m, mem2, refs2, ptable[j].pagetable, lay)
    {
      if j == i {
        CalledSpace(m, lay, mem0, refs0, ptable, i, pa, mem1, refs1, mem2, refs2, added, v, mapped);
        CalledPrivate(m, lay, mem0, refs0, ptable, i, pa, mem1, refs1, mem2, refs2, added, v, mapped);
      } else {
        CalledOthers(m, lay, mem0, refs0, ptable, i, pa, mem1, refs1, mem2, refs2, added, v, mapped, j);
      }
    }
  }

  /** Exact accounts stay exact if and only if the new page is mapped, and nothing was mapped there before. */
  lemma ExactIff(m: Machine, lay: Layout, mem0: Mem, refs0: seq<nat>, ptable: seq<Proc>, i: nat, pa: nat,
                 mem1: Mem, refs1: seq<nat>, mem2: Mem, refs2: seq<nat>, added: seq<nat>, v: nat, mapped: bool)
    requires Called(m, lay, mem0, refs0, ptable, i, pa, mem1, refs1, mem2, refs2, added, v, mapped)
               && Exact(m, mem0, refs0, ptable, lay)
    ensures Exact(m, mem2, refs2, ptable, lay) <==>
              mapped
              && View(mem0, ptable[i].pagetable, lay.memVirtual)[v] == Unmapped
  {
    hide Uses, Owned, Good, Ended, Loses, Exact, Lost;
    CallLoses(m, lay, mem0, refs0, ptable, i, pa, mem1, refs1, mem2, refs2, added, v, mapped);
    LostPages(m, lay, mem0, refs0, ptable, i, pa, mem1, refs1, mem2, refs2, added, v, mapped);
    LosesExact(m, mem0, refs0, ptable, mem2, refs2, ptable, lay,
               Lost(View(mem0, ptable[i].pagetable, lay.memVirtual), v, pa, mapped));
  }

  /** What a call that returns 0 has done. */
  ghost predicate PageAllocated(m: Machine, lay: Layout, mem0: Mem, refs0: seq<nat>, ptable: seq<Proc>, i: nat,
                                addr: nat,
                                pa: nat, mem: Mem, refs: seq<nat>)
  {
    && i < |ptable| && addr / PAGESIZE < lay.memVirtual
    && var v, root := addr / PAGESIZE, ptable[i].pagetable;
       var view, view' := View(mem0, root, lay.memVirtual), View(mem, root, lay.memVirtual);
       var enough := |FreeSet(m, refs0)| > FreshCursor(mem0, root, addr).level;
       && pa < |refs0| && pa < |mem| && refs0[pa] == 0 && m.Allocatable(pa) && mem[pa] == Filled(ZERO)
       && view' == (if enough then view[v := NewMapping(pa)] else view)
       && OnlyOwn(m, mem0, refs0, mem, root)
       && (forall j: nat :: Live(ptable, j) && j != i ==> SameTranslation(mem0, mem, ptable[j].pagetable))
       && Good(m, mem, refs, ptable, lay)
       && Loses(m, mem0, refs0, ptable, mem, refs, ptable, lay, Lost(view, v, pa, enough))
       && (Exact(m, mem0, refs0, ptable, lay) ==> (Exact(m, mem, refs, ptable, lay) <==> enough && view[v] == Unmapped))
  }

  lemma MappedIffEnough(m: Machine, lay: Layout, mem0: Mem, refs0: seq<nat>, root: nat, pa: nat, mem1: Mem,
                        refs1: seq<nat>,
                        mem2: Mem, refs2: seq<nat>, added: seq<nat>, view': seq<Translation>, mapped: bool, level: nat)
    requires Ended(m, lay, mem0, refs0, root, pa, mem1, refs1, mem2, refs2, added, view')
    requires if mapped then |added| == level
             else |added| < level && forall f :: 0 <= f < |refs2| && m.Allocatable(f) ==> refs2[f] != 0
    ensures mapped <==> |FreeSet(m, refs0)| > level
  {
    FreeLess(m, refs0, pa);
    FreeAfter(m, mem1, refs1, mem2, refs2, root, added);
    if !mapped {
      NoneFree(m, refs2);
    }
  }

  lemma StillZero(m: Machine, lay: Layout, mem0: Mem, refs0: seq<nat>, ptable: seq<Proc>, i: nat, pa: nat, mem1: Mem,
                  refs1: seq<nat>,
                  mem2: Mem, refs2: seq<nat>, added: seq<nat>, view': seq<Translation>)
    requires Good(m, mem0, refs0, ptable, lay) && Live(ptable, i)
    requires Ended(m, lay, mem0, refs0, ptable[i].pagetable, pa, mem1, refs1, mem2, refs2, added, view')
    ensures pa < |mem2| && mem2[pa] == Filled(ZERO)
  {
    TakenIsNew(m, mem0, refs0, ptable, lay, i, pa);
    EndedCounts(m, lay, mem0, refs0, ptable[i].pagetable, pa, mem1, refs1, mem2, refs2, added, view');
  }

  lemma AllocOutcome(m: Machine, lay: Layout, mem0: Mem, refs0: seq<nat>, ptable: seq<Proc>, i: nat, pa: nat,
                     mem1: Mem, refs1: seq<nat>, mem2: Mem, refs2: seq<nat>, added: seq<nat>, v: nat, mapped: bool)
    requires Called(m, lay, mem0, refs0, ptable, i, pa, mem1, refs1, mem2, refs2, added, v, mapped)
    requires var level := FreshCursor(mem0, ptable[i].pagetable, v * PAGESIZE).level;
             if mapped then |added| == level
             else |added| < level && forall f :: 0 <= f < |refs2| && m.Allocatable(f) ==> refs2[f] != 0
    ensures PageAllocated(m, lay, mem0, refs0, ptable, i, v * PAGESIZE, pa, mem2, refs2)
  {
    hide Good, Exact, Loses, Lost, SameTranslation, OnlyOwn, FreeSet, Ended;
    var root := ptable[i].pagetable;
    var view := View(mem0, root, lay.memVirtual);
    var view' := view[v := AfterCall(view, v, pa, mapped)];
    PageNumbers(v, v);
    EndedView(m, lay, mem0, refs0, root, pa, mem1, refs1, mem2, refs2, added, view');
    assert !mapped ==> view' == view;
    MappedIffEnough(m, lay, mem0, refs0, root, pa, mem1, refs1, mem2, refs2, added, view', mapped,
                    FreshCursor(mem0, root, v * PAGESIZE).level);
    StillZero(m, lay, mem0, refs0, ptable, i, pa, mem1, refs1, mem2, refs2, added, view');
    CallKeepsGood(m, lay, mem0, refs0, ptable, i, pa, mem1, refs1, mem2, refs2, added, v, mapped);
    CallLoses(m, lay, mem0, refs0, ptable, i, pa, mem1, refs1, mem2, refs2, added, v, mapped);
    CalledCounts(m, lay, mem0, refs0, ptable, i, pa, mem1, refs1, mem2, refs2, added, v, mapped, 0);
    if Exact(m, mem0, refs0, ptable, lay) {
      ExactIff(m, lay, mem0, refs0, ptable, i, pa, mem1, refs1, mem2, refs2, added, v, mapped);
    }
    forall j: nat | Live(ptable, j) && j != i
      ensures SameTranslation(mem0, mem2, ptable[j].pagetable)
    {
      CalledOthers(m, lay, mem0, refs0, ptable, i, pa, mem1, refs1, mem2, refs2, added, v, mapped, j);
    }
  }

  lemma EndedView(m: Machine, lay: Layout, mem0: Mem, refs0: seq<nat>, root: nat, pa: nat, mem1: Mem, refs1: seq<nat>,
                  mem2: Mem, refs2: seq<nat>, added: seq<nat>, view': seq<Translation>)
    requires Ended(m, lay, mem0, refs0, root, pa, mem1, refs1, mem2, refs2, added, view')
    ensures View(mem2, root, lay.memVirtual) == view'
  {
  }
}
