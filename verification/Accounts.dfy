/** The kernel's invariant: no page is counted less often than it is used, and writable pages have one user.

The accounts are exact when every count is the number of uses. A page allocation can break that, and lose pages, but
not the invariant.

`Good` speaks about memory, counts and the process table as values, so that states before and
after a system call can be compared.
 */
module Accounts {
  import opened Paging
  import opened PageTables
  import opened Allocator
  import opened VmIters
  import opened Spaces

  /** No allocatable page is free. */
  predicate AllUsed(m: Machine, refs: seq<nat>) {
    forall f :: 0 <= f < |refs| && m.Allocatable(f) ==> refs[f] != 0
  }

  /** The counts after the uses `gone` have been dropped. */
  ghost predicate Dropped(refs0: seq<nat>, refs: seq<nat>, gone: multiset<nat>) {
    |refs| == |refs0| && forall f :: 0 <= f < |refs| ==> refs[f] + gone[f] == refs0[f]
  }

  /** No page that the allocator manages is counted less often than it is used. */
  ghost predicate Backed(m: Machine, mem: Mem, refs: seq<nat>, ptable: seq<Proc>, lay: Layout) {
    && |mem| == |refs| == m.npages
    && forall f :: 0 <= f < m.npages && m.Allocatable(f) ==> Owned(mem, ptable, lay)[f] <= refs[f]
  }

  /** The count of every page that the allocator manages is the number of its uses. */
  ghost predicate Exact(m: Machine, mem: Mem, refs: seq<nat>, ptable: seq<Proc>, lay: Layout) {
    && |mem| == |refs| == m.npages
    && forall f :: 0 <= f < m.npages && m.Allocatable(f) ==> refs[f] == Owned(mem, ptable, lay)[f]
  }

  /** By how much counts exceed uses has grown by `lost`. */
  ghost predicate Loses(m: Machine, mem: Mem, refs: seq<nat>, ptable: seq<Proc>, mem': Mem, refs': seq<nat>,
                        ptable': seq<Proc>,
                        lay: Layout, lost: multiset<nat>)
  {
    && |mem| == |refs| == |mem'| == |refs'| == m.npages
    && forall f :: 0 <= f < m.npages && m.Allocatable(f) ==>
         refs'[f] + Owned(mem, ptable, lay)[f] == refs[f] + Owned(mem', ptable', lay)[f] + lost[f]
  }

  /** Counts follow uses. */
  ghost predicate Keeps(m: Machine, mem: Mem, refs: seq<nat>, ptable: seq<Proc>, mem': Mem, refs': seq<nat>,
                        ptable': seq<Proc>,
                        lay: Layout)
  {
    Loses(m, mem, refs, ptable, mem', refs', ptable', lay, multiset{})
  }

  /** Exact accounts stay exact, and only they do, where counts follow uses. */
  lemma KeepsExact(m: Machine, mem: Mem, refs: seq<nat>, ptable: seq<Proc>, mem': Mem, refs': seq<nat>,
                   ptable': seq<Proc>, lay: Layout)
    requires Keeps(m, mem, refs, ptable, mem', refs', ptable', lay)
    ensures Exact(m, mem', refs', ptable', lay) <==> Exact(m, mem, refs, ptable, lay)
    ensures Backed(m, mem, refs, ptable, lay) ==> Backed(m, mem', refs', ptable', lay)
  {
    hide Owned;
  }

  /** Accounts that were exact stay so if and only if nothing is lost. */
  lemma LosesExact(m: Machine, mem: Mem, refs: seq<nat>, ptable: seq<Proc>, mem': Mem, refs': seq<nat>,
                   ptable': seq<Proc>,
                   lay: Layout, lost: multiset<nat>)
    requires Loses(m, mem, refs, ptable, mem', refs', ptable', lay, lost) && forall f :: f in lost ==>
               f < m.npages
               && m.Allocatable(f)
    ensures Backed(m, mem, refs, ptable, lay) ==> Backed(m, mem', refs', ptable', lay)
    ensures Exact(m, mem, refs, ptable, lay) ==> (Exact(m, mem', refs', ptable', lay) <==> lost == multiset{})
  {
    hide Owned;
    if f :| f in lost {
      assert lost[f] > 0;
    }
  }

  /** Losses add up. */
  lemma LosesTrans(m: Machine, mem0: Mem, refs0: seq<nat>, ptable0: seq<Proc>, mem1: Mem, refs1: seq<nat>,
                   ptable1: seq<Proc>,
                   mem2: Mem, refs2: seq<nat>, ptable2: seq<Proc>, lay: Layout, lost: multiset<nat>,
                       more: multiset<nat>)
    requires Loses(m, mem0, refs0, ptable0, mem1, refs1, ptable1, lay, lost)
    requires Loses(m, mem1, refs1, ptable1, mem2, refs2, ptable2, lay, more)
    ensures Loses(m, mem0, refs0, ptable0, mem2, refs2, ptable2, lay, lost + more)
  {
    hide Owned;
  }

  lemma KeepsTrans(m: Machine, mem0: Mem, refs0: seq<nat>, ptable0: seq<Proc>, mem1: Mem, refs1: seq<nat>,
                   ptable1: seq<Proc>,
                   mem2: Mem, refs2: seq<nat>, ptable2: seq<Proc>, lay: Layout)
    requires Keeps(m, mem0, refs0, ptable0, mem1, refs1, ptable1, lay)
               && Keeps(m, mem1, refs1, ptable1, mem2, refs2, ptable2, lay)
    ensures Keeps(m, mem0, refs0, ptable0, mem2, refs2, ptable2, lay)
  {
    hide Owned, Loses;
    LosesTrans(m, mem0, refs0, ptable0, mem1, refs1, ptable1, mem2, refs2, ptable2, lay, multiset{}, multiset{});
    var none: multiset<nat> := multiset{};
    assert none + none == none;
  }

  /** Where memory and process table give the same uses, and counts stay, counts follow uses. */
  lemma KeepsSame(m: Machine, mem: Mem, refs: seq<nat>, ptable: seq<Proc>, mem': Mem, ptable': seq<Proc>, lay: Layout)
    requires |mem| == |mem'| == |refs| == m.npages && Owned(mem', ptable', lay) == Owned(mem, ptable, lay)
    ensures Keeps(m, mem, refs, ptable, mem', refs, ptable', lay)
  {
    hide Owned;
  }

  /** Table pages and pages writable by the user have a single use. */
  ghost predicate Private(mem: Mem, refs: seq<nat>, root: nat, lay: Layout) {
    && (forall f :: f in Pages(mem, root, 3) ==> f < |refs| && refs[f] == 1)
    && forall v :: lay.procStart <= v < lay.memVirtual && Writable(View(mem, root, lay.memVirtual)[v])
                   ==> FrameIn(View(mem, root, lay.memVirtual)[v]) < |refs|
                       && refs[FrameIn(View(mem, root, lay.memVirtual)[v])] == 1
  }

  ghost predicate Live(ptable: seq<Proc>, i: nat) {
    i < |ptable| && !ptable[i].state.Free?
  }

  ghost predicate Intact(m: Machine, mem: Mem, refs: seq<nat>, root: nat, lay: Layout) {
    Space(m, mem, root, lay) && Private(mem, refs, root, lay)
  }

  ghost predicate AllIntact(m: Machine, mem: Mem, refs: seq<nat>, ptable: seq<Proc>, lay: Layout) {
    forall i: nat :: Live(ptable, i) ==> Intact(m, mem, refs, ptable[i].pagetable, lay)
  }

  ghost predicate Good(m: Machine, mem: Mem, refs: seq<nat>, ptable: seq<Proc>, lay: Layout) {
    && lay.Ok() && |ptable| == lay.nproc && ptable[0].state.Free?
    && Backed(m, mem, refs, ptable, lay)
    && AllIntact(m, mem, refs, ptable, lay)
  }

  /** A good state with exact accounts. */
  ghost predicate InOrder(m: Machine, mem: Mem, refs: seq<nat>, ptable: seq<Proc>, lay: Layout) {
    Good(m, mem, refs, ptable, lay) && Exact(m, mem, refs, ptable, lay)
  }

  lemma IntactAt(m: Machine, mem: Mem, refs: seq<nat>, ptable: seq<Proc>, lay: Layout, i: nat)
    requires Good(m, mem, refs, ptable, lay) && Live(ptable, i)
    ensures Space(m, mem, ptable[i].pagetable, lay) && Private(mem, refs, ptable[i].pagetable, lay)
  {
    assert Intact(m, mem, refs, ptable[i].pagetable, lay);
  }

  /** The uses of a live process are counted. */
  lemma UsesCounted(m: Machine, mem: Mem, refs: seq<nat>, ptable: seq<Proc>, lay: Layout, i: nat)
    requires Good(m, mem, refs, ptable, lay) && Live(ptable, i)
    ensures forall f :: 0 <= f < m.npages ==> Uses(mem, ptable[i].pagetable, lay)[f] <= refs[f]
  {
    OwnedIncludes(mem, ptable, lay, i);
    IntactAt(m, mem, refs, ptable, lay, i);
    var uses := Uses(mem, ptable[i].pagetable, lay);
    forall f | 0 <= f < m.npages
      ensures uses[f] <= refs[f]
    {
      if f in uses {
        assert m.Allocatable(f);
      }
    }
  }

  /** A live process can be released. */
  lemma Releasable(m: Machine, mem: Mem, refs: seq<nat>, ptable: seq<Proc>, lay: Layout, i: nat)
    requires Good(m, mem, refs, ptable, lay) && Live(ptable, i)
    ensures Tidy(mem, ptable[i].pagetable)
    ensures forall f :: f in Uses(mem, ptable[i].pagetable, lay) ==> m.Allocatable(f)
    ensures forall f :: 0 <= f < m.npages ==> Uses(mem, ptable[i].pagetable, lay)[f] <= refs[f]
  {
    IntactAt(m, mem, refs, ptable, lay, i);
    UsesCounted(m, mem, refs, ptable, lay, i);
  }

  /** A page with a single use is used by one process only. */
  lemma SingleUse(m: Machine, mem: Mem, refs: seq<nat>, ptable: seq<Proc>, lay: Layout, i: nat, j: nat, f: nat)
    requires Good(m, mem, refs, ptable, lay) && Live(ptable, i) && Live(ptable, j) && i != j
    requires f < m.npages && refs[f] == 1 && f in Uses(mem, ptable[i].pagetable, lay)
    ensures f !in Uses(mem, ptable[j].pagetable, lay)
  {
    IntactAt(m, mem, refs, ptable, lay, i);
    OwnedIncludesBoth(mem, ptable, lay, i, j);
    var a, b := OwnedBy(mem, ptable[i], lay), OwnedBy(mem, ptable[j], lay);
    assert (a + b)[f] <= Owned(mem, ptable, lay)[f];
  }

  /** While the accounts are exact, every count stays below NPROC, so an 8-bit counter does not wrap. */
  lemma CountsBounded(m: Machine, mem: Mem, refs: seq<nat>, ptable: seq<Proc>, lay: Layout, f: nat)
    requires Good(m, mem, refs, ptable, lay) && Exact(m, mem, refs, ptable, lay) && f < m.npages && m.Allocatable(f)
    ensures refs[f] < lay.nproc <= REFCOUNT_END
  {
    forall i | 0 <= i < |ptable|
      ensures OwnedBy(mem, ptable[i], lay)[f] <= 1
    {
      if Live(ptable, i) {
        IntactAt(m, mem, refs, ptable, lay, i);
      }
    }
    OwnedBound(mem, ptable, lay, f);
  }

  lemma {:induction false} UserFrameListed(view: seq<Translation>, lo: nat, hi: nat, v: nat)
    requires lo <= v < hi <= |view| && User(view[v])
    ensures FrameIn(view[v]) in UserFrames(view, lo, hi)
    decreases hi
  {
    hide UserFrames;
    UserFramesStep(view, lo, hi);
    if v < hi - 1 {
      UserFrameListed(view, lo, hi - 1, v);
    }
  }

  /** What an address that the user may access translates to: the console, or a page that the process uses. */
  lemma UserAddress(m: Machine, mem: Mem, root: nat, lay: Layout, va: nat)
    requires lay.Ok() && Space(m, mem, root, lay) && va < VA_END && User(Translate(mem, root, va))
    ensures va / PAGESIZE < lay.memVirtual
    ensures var t, v := Translate(mem, root, va), va / PAGESIZE;
            var u := View(mem, root, lay.memVirtual)[v];
            && User(u) && u.perm == t.perm && FrameIn(t) == FrameIn(u) && t.pa == u.pa + va % PAGESIZE
            && if v < lay.procStart then v == lay.console == FrameIn(t)
               else FrameIn(t) in UserBag(View(mem, root, lay.memVirtual), lay) && FrameIn(t) in Uses(mem, root, lay)
  {
    var v, view := va / PAGESIZE, View(mem, root, lay.memVirtual);
    InPage(mem, root, va);
    ViewAt(mem, root, lay.memVirtual, v);
    assert Proper(view[v], v, lay);
    if lay.procStart <= v {
      UserFrameListed(view, lay.procStart, lay.memVirtual, v);
    }
  }

  /** The console is no page of the allocator, so no process uses it. */
  lemma ConsoleUnused(m: Machine, mem: Mem, root: nat, lay: Layout)
    requires lay.Ok() && Space(m, mem, root, lay)
    ensures lay.console !in Uses(mem, root, lay)
  {
  }

  /** Isolation: in a good state, of all addresses, none that one process can write as a user shares its page with one
      that another process can access as a user, the console apart. */
  lemma Isolation(m: Machine, mem: Mem, refs: seq<nat>, ptable: seq<Proc>, lay: Layout, i: nat, j: nat, a: nat, b: nat)
    requires Good(m, mem, refs, ptable, lay) && Live(ptable, i) && Live(ptable, j) && i != j && a < VA_END && b < VA_END
    requires var t := Translate(mem, ptable[i].pagetable, a); User(t) && Writable(t)
    requires User(Translate(mem, ptable[j].pagetable, b))
    requires FrameIn(Translate(mem, ptable[i].pagetable, a)) == FrameIn(Translate(mem, ptable[j].pagetable, b))
    ensures a / PAGESIZE == b / PAGESIZE == lay.console
              && FrameIn(Translate(mem, ptable[i].pagetable, a)) == lay.console
  {
    var p, q := ptable[i].pagetable, ptable[j].pagetable;
    IntactAt(m, mem, refs, ptable, lay, i);
    IntactAt(m, mem, refs, ptable, lay, j);
    UserAddress(m, mem, p, lay, a);
    UserAddress(m, mem, q, lay, b);
    ConsoleUnused(m, mem, p, lay);
    ConsoleUnused(m, mem, q, lay);
    if lay.procStart <= a / PAGESIZE {
      SingleUse(m, mem, refs, ptable, lay, i, j, FrameIn(Translate(mem, p, a)));
    }
  }

  /** No address at all lets a user access, let alone write, a table page of any process, its own included. */
  lemma TablesOutOfReach(m: Machine, mem: Mem, refs: seq<nat>, ptable: seq<Proc>, lay: Layout, i: nat, j: nat, va: nat)
    requires Good(m, mem, refs, ptable, lay) && Live(ptable, i) && Live(ptable, j) && va < VA_END
    requires User(Translate(mem, ptable[i].pagetable, va))
    ensures FrameIn(Translate(mem, ptable[i].pagetable, va)) !in Pages(mem, ptable[j].pagetable, 3)
  {
    var p, q := ptable[i].pagetable, ptable[j].pagetable;
    var f := FrameIn(Translate(mem, p, va));
    IntactAt(m, mem, refs, ptable, lay, i);
    IntactAt(m, mem, refs, ptable, lay, j);
    UserAddress(m, mem, p, lay, va);
    ConsoleUnused(m, mem, q, lay);
    if f in Pages(mem, q, 3) {
      assert f in multiset(Pages(mem, q, 3));
      assert f in Uses(mem, q, lay);
      if i != j {
        SingleUse(m, mem, refs, ptable, lay, j, i, f);
      }
    }
  }

  lemma ExitKeeps(m: Machine, mem: Mem, refs: seq<nat>, refs': seq<nat>, ptable: seq<Proc>, lay: Layout, i: nat,
                  p: Proc)
    requires |mem| == |refs| == m.npages && Live(ptable, i) && p.state.Free?
    requires Dropped(refs, refs', Uses(mem, ptable[i].pagetable, lay))
    ensures Keeps(m, mem, refs, ptable, mem, refs', ptable[i := p], lay)
  {
    hide Owned, Uses;
    var uses := Uses(mem, ptable[i].pagetable, lay);
    OwnedUpdate(mem, ptable, lay, i, p);
    assert Owned(mem, ptable[i := p], lay) + uses == Owned(mem, ptable, lay) + multiset{};
    forall f | 0 <= f < m.npages && m.Allocatable(f)
      ensures refs'[f] + Owned(mem, ptable, lay)[f] == refs[f] + Owned(mem, ptable[i := p], lay)[f]
    {
      assert (Owned(mem, ptable[i := p], lay) + uses)[f] == (Owned(mem, ptable, lay) + multiset{})[f];
    }
  }

  /** Releasing a process's address space keeps the state good. */
  lemma ExitKeepsGood(m: Machine, mem: Mem, refs: seq<nat>, refs': seq<nat>, ptable: seq<Proc>, lay: Layout, i: nat,
                      p: Proc)
    requires Good(m, mem, refs, ptable, lay) && Live(ptable, i) && p.state.Free?
    requires Dropped(refs, refs', Uses(mem, ptable[i].pagetable, lay))
    ensures Good(m, mem, refs', ptable[i := p], lay) && Keeps(m, mem, refs, ptable, mem, refs', ptable[i := p], lay)
  {
    hide Owned, Uses, Space, Private;
    var ptable' := ptable[i := p];
    ExitKeeps(m, mem, refs, refs', ptable, lay, i, p);
    KeepsExact(m, mem, refs, ptable, mem, refs', ptable', lay);
    forall j: nat | Live(ptable', j)
      ensures Intact(m, mem, refs', ptable'[j].pagetable, lay)
    {
      assert Live(ptable, j) && j != i;
      IntactAt(m, mem, refs, ptable, lay, j);
      PrivateStays(m, mem, refs, refs', ptable, lay, i, j);
    }
  }

  lemma PrivateStays(m: Machine, mem: Mem, refs: seq<nat>, refs': seq<nat>, ptable: seq<Proc>, lay: Layout, i: nat,
                     j: nat)
    requires Good(m, mem, refs, ptable, lay) && Live(ptable, i) && Live(ptable, j) && i != j
    requires Dropped(refs, refs', Uses(mem, ptable[i].pagetable, lay))
    ensures Private(mem, refs', ptable[j].pagetable, lay)
  {
    hide Good, Uses, Owned, Pages, View;
    var q := ptable[j].pagetable;
    var view := View(mem, q, lay.memVirtual);
    IntactAt(m, mem, refs, ptable, lay, j);
    forall f | f in Pages(mem, q, 3)
      ensures f < |refs'| && refs'[f] == 1
    {
      TablePageUsed(mem, q, lay, f);
      SingleStays(m, mem, refs, refs', ptable, lay, i, j, f);
    }
    forall v | lay.procStart <= v < lay.memVirtual && Writable(view[v])
      ensures FrameIn(view[v]) < |refs'| && refs'[FrameIn(view[v])] == 1
    {
      assert Proper(view[v], v, lay);
      UserPageUsed(mem, q, lay, v);
      SingleStays(m, mem, refs, refs', ptable, lay, i, j, FrameIn(view[v]));
    }
  }

  lemma TablePageUsed(mem: Mem, root: nat, lay: Layout, f: nat)
    requires f in Pages(mem, root, 3)
    ensures f in Uses(mem, root, lay)
  {
    assert f in multiset(Pages(mem, root, 3));
  }

  lemma UserPageUsed(mem: Mem, root: nat, lay: Layout, v: nat)
    requires lay.procStart <= v < lay.memVirtual && User(View(mem, root, lay.memVirtual)[v])
    ensures FrameIn(View(mem, root, lay.memVirtual)[v]) in Uses(mem, root, lay)
  {
    UserFrameListed(View(mem, root, lay.memVirtual), lay.procStart, lay.memVirtual, v);
  }

  /** A page with a single use keeps its count when another process is released. */
  lemma SingleStays(m: Machine, mem: Mem, refs: seq<nat>, refs': seq<nat>, ptable: seq<Proc>, lay: Layout, i: nat,
                    j: nat, f: nat)
    requires Good(m, mem, refs, ptable, lay) && Live(ptable, i) && Live(ptable, j) && i != j
    requires Dropped(refs, refs', Uses(mem, ptable[i].pagetable, lay))
    requires f < |refs| && refs[f] == 1 && f in Uses(mem, ptable[j].pagetable, lay)
    ensures f < |refs'| && refs'[f] == 1
  {
    hide Uses, Owned, AllIntact;
    SingleUse(m, mem, refs, ptable, lay, j, i, f);
  }

  /** The pages of process `j` that must stay private to it. */
  ghost predicate PrivatePage(mem: Mem, root: nat, lay: Layout, f: nat) {
    || f in Pages(mem, root, 3)
    || exists v :: lay.procStart <= v < lay.memVirtual && Writable(View(mem, root, lay.memVirtual)[v])
                   && FrameIn(View(mem, root, lay.memVirtual)[v]) == f
  }

  /** Table pages of live processes are in use, so they survive writes to free pages. */
  lemma LiveAgree(m: Machine, mem0: Mem, refs0: seq<nat>, mem: Mem, ptable: seq<Proc>, lay: Layout, j: nat)
    requires Good(m, mem0, refs0, ptable, lay) && KeepsUsed(m, mem0, refs0, mem) && Live(ptable, j)
    ensures Agree(mem0, mem, Pages(mem0, ptable[j].pagetable, 3))
  {
    IntactAt(m, mem0, refs0, ptable, lay, j);
    UsedPagesAgree(m, mem0, refs0, mem, ptable[j].pagetable);
  }

  lemma IntactFrame(m: Machine, mem0: Mem, mem: Mem, refs: seq<nat>, root: nat, lay: Layout)
    requires Agree(mem0, mem, Pages(mem0, root, 3)) && Intact(m, mem0, refs, root, lay)
    ensures Intact(m, mem, refs, root, lay)
  {
    UsesFrame(mem0, mem, root, lay);
    SpaceFrame(m, mem0, mem, root, lay);
  }

  /** Writes to free pages alone keep the state good. */
  lemma GoodFrame(m: Machine, mem0: Mem, refs0: seq<nat>, mem: Mem, ptable: seq<Proc>, lay: Layout)
    requires Good(m, mem0, refs0, ptable, lay) && KeepsUsed(m, mem0, refs0, mem)
    ensures Good(m, mem, refs0, ptable, lay) && Keeps(m, mem0, refs0, ptable, mem, refs0, ptable, lay)
  {
    hide Owned, Uses, Space, Private;
    forall j: nat | Live(ptable, j)
      ensures Agree(mem0, mem, Pages(mem0, ptable[j].pagetable, 3)) && Intact(m, mem, refs0, ptable[j].pagetable, lay)
    {
      LiveAgree(m, mem0, refs0, mem, ptable, lay, j);
      IntactFrame(m, mem0, mem, refs0, ptable[j].pagetable, lay);
    }
    LiveOwned(mem0, mem, ptable, lay);
    KeepsSame(m, mem0, refs0, ptable, mem, ptable, lay);
  }

  lemma LiveOwned(mem0: Mem, mem: Mem, ptable: seq<Proc>, lay: Layout)
    requires forall j: nat :: Live(ptable, j) ==> Agree(mem0, mem, Pages(mem0, ptable[j].pagetable, 3))
    ensures Owned(mem, ptable, lay) == Owned(mem0, ptable, lay)
  {
    forall j | 0 <= j < |ptable| && !ptable[j].state.Free?
      ensures Agree(mem0, mem, Pages(mem0, ptable[j].pagetable, 3))
    {
      assert Live(ptable, j);
    }
    OwnedFrame(mem0, mem, ptable, lay);
  }

  /** Every live process translates every address as before. */
  ghost predicate SameTranslations(mem0: Mem, mem: Mem, ptable: seq<Proc>) {
    forall j: nat :: Live(ptable, j) ==> SameTranslation(mem0, mem, ptable[j].pagetable)
  }

  lemma TranslationsFrame(m: Machine, mem0: Mem, refs0: seq<nat>, mem: Mem, ptable: seq<Proc>, lay: Layout)
    requires Good(m, mem0, refs0, ptable, lay) && KeepsUsed(m, mem0, refs0, mem)
    ensures SameTranslations(mem0, mem, ptable)
  {
    forall j: nat | Live(ptable, j)
      ensures SameTranslation(mem0, mem, ptable[j].pagetable)
    {
      LiveAgree(m, mem0, refs0, mem, ptable, lay, j);
      TranslateFrame(mem0, mem, ptable[j].pagetable);
    }
  }

  /** The counts after the uses `more` have been added. */
  ghost predicate Raised(refs0: seq<nat>, refs: seq<nat>, more: multiset<nat>) {
    |refs| == |refs0| && forall f :: 0 <= f < |refs| ==> refs[f] == refs0[f] + more[f]
  }

  lemma AdmitKeeps(m: Machine, mem: Mem, refs: seq<nat>, refs': seq<nat>, ptable: seq<Proc>, lay: Layout, i: nat,
                   p: Proc)
    requires |mem| == |refs| == m.npages && i < |ptable| && ptable[i].state.Free? && !p.state.Free?
    requires Raised(refs, refs', Uses(mem, p.pagetable, lay))
    ensures Keeps(m, mem, refs, ptable, mem, refs', ptable[i := p], lay)
  {
    hide Owned, Uses;
    var uses := Uses(mem, p.pagetable, lay);
    OwnedUpdate(mem, ptable, lay, i, p);
    assert Owned(mem, ptable[i := p], lay) + multiset{} == Owned(mem, ptable, lay) + uses;
    forall f | 0 <= f < m.npages && m.Allocatable(f)
      ensures refs'[f] + Owned(mem, ptable, lay)[f] == refs[f] + Owned(mem, ptable[i := p], lay)[f]
    {
      assert (Owned(mem, ptable[i := p], lay) + multiset{})[f] == (Owned(mem, ptable, lay) + uses)[f];
    }
  }

  lemma PrivateWithNewcomer(mem: Mem, refs: seq<nat>, refs': seq<nat>, root: nat, lay: Layout, uses: multiset<nat>)
    requires Private(mem, refs, root, lay) && Raised(refs, refs', uses)
    requires forall f :: f in uses ==> !PrivatePage(mem, root, lay, f)
    ensures Private(mem, refs', root, lay)
  {
    var view := View(mem, root, lay.memVirtual);
    forall f | f in Pages(mem, root, 3)
      ensures f < |refs'| && refs'[f] == 1
    {
      assert PrivatePage(mem, root, lay, f);
    }
    forall v | lay.procStart <= v < lay.memVirtual && Writable(view[v])
      ensures FrameIn(view[v]) < |refs'| && refs'[FrameIn(view[v])] == 1
    {
      assert PrivatePage(mem, root, lay, FrameIn(view[v]));
    }
  }

  /** No page in `uses` is private to a live process. */
  ghost predicate LeavesPrivate(mem: Mem, ptable: seq<Proc>, lay: Layout, uses: multiset<nat>) {
    forall j: nat, f: nat :: Live(ptable, j) && f in uses ==> !PrivatePage(mem, ptable[j].pagetable, lay, f)
  }

  lemma AdmitKeepsIntact(m: Machine, mem: Mem, refs: seq<nat>, refs': seq<nat>, ptable: seq<Proc>, lay: Layout, i: nat,
                         p: Proc,
                         uses: multiset<nat>)
    requires AllIntact(m, mem, refs, ptable, lay) && i < |ptable|
    requires Raised(refs, refs', uses) && LeavesPrivate(mem, ptable, lay, uses)
    requires Intact(m, mem, refs', p.pagetable, lay)
    ensures AllIntact(m, mem, refs', ptable[i := p], lay)
  {
    var ptable' := ptable[i := p];
    forall j: nat | Live(ptable', j)
      ensures Intact(m, mem, refs', ptable'[j].pagetable, lay)
    {
      if j != i {
        assert Live(ptable, j);
        PrivateWithNewcomer(mem, refs, refs', ptable[j].pagetable, lay, uses);
      }
    }
  }

  /** A new process may take a free slot if it uses no page that is private to another. */
  lemma AdmitKeepsGood(m: Machine, mem: Mem, refs: seq<nat>, refs': seq<nat>, ptable: seq<Proc>, lay: Layout, i: nat,
                       p: Proc)
    requires Good(m, mem, refs, ptable, lay) && 0 < i < |ptable| && ptable[i].state.Free? && !p.state.Free?
    requires Raised(refs, refs', Uses(mem, p.pagetable, lay))
               && LeavesPrivate(mem, ptable, lay, Uses(mem, p.pagetable, lay))
    requires Intact(m, mem, refs', p.pagetable, lay)
    ensures Good(m, mem, refs', ptable[i := p], lay) && Keeps(m, mem, refs, ptable, mem, refs', ptable[i := p], lay)
  {
    hide Owned, Uses, Space, Private, AllIntact, LeavesPrivate, Raised;
    AdmitKeeps(m, mem, refs, refs', ptable, lay, i, p);
    KeepsExact(m, mem, refs, ptable, mem, refs', ptable[i := p], lay);
    AdmitKeepsIntact(m, mem, refs, refs', ptable, lay, i, p, Uses(mem, p.pagetable, lay));
  }

  /** Two process tables with the same live address spaces. */
  ghost predicate SameSpaces(ptable: seq<Proc>, ptable': seq<Proc>) {
    && |ptable'| == |ptable|
    && forall i :: 0 <= i < |ptable| ==>
         && (ptable'[i].state.Free? <==> ptable[i].state.Free?)
         && (ptable[i].state.Free? || ptable'[i].pagetable == ptable[i].pagetable)
  }

  /** Names, registers, and the table pointers of free slots do not matter. */
  lemma GoodSameSpaces(m: Machine, mem: Mem, refs: seq<nat>, ptable: seq<Proc>, ptable': seq<Proc>, lay: Layout)
    requires Good(m, mem, refs, ptable, lay) && SameSpaces(ptable, ptable')
    ensures Good(m, mem, refs, ptable', lay) && Keeps(m, mem, refs, ptable, mem, refs, ptable', lay)
  {
    hide Uses, Space, Private;
    assert Shares(mem, ptable', lay) == Shares(mem, ptable, lay);
    KeepsSame(m, mem, refs, ptable, mem, ptable', lay);
    forall i: nat | Live(ptable', i)
      ensures Intact(m, mem, refs, ptable'[i].pagetable, lay)
    {
      assert Live(ptable, i);
    }
  }

  lemma {:induction false} NothingInTotal(xs: seq<multiset<nat>>)
    requires forall i :: 0 <= i < |xs| ==> xs[i] == multiset{}
    ensures Total(xs) == multiset{}
  {
    if xs != [] {
      NothingInTotal(xs[..|xs| - 1]);
    }
  }

  /** The state at boot: no process, and no page counted. */
  lemma BootIsGood(m: Machine, mem: Mem, refs: seq<nat>, ptable: seq<Proc>, lay: Layout)
    requires lay.Ok() && |ptable| == lay.nproc && (forall i :: 0 <= i < |ptable| ==> ptable[i].state.Free?)
    requires |mem| == |refs| == m.npages && forall f :: 0 <= f < m.npages ==> refs[f] == 0
    ensures Good(m, mem, refs, ptable, lay) && Exact(m, mem, refs, ptable, lay)
  {
    NothingInTotal(Shares(mem, ptable, lay));
  }
}
