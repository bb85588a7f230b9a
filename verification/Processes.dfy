/** The process system calls of kernel.cc: setup, fork, exit and page allocation. */
module Processes {
  import opened Arithmetic
  import opened Paging
  import opened PageTables
  import opened Depths
  import opened Allocator
  import opened VmIters
  import opened PtIters
  import opened Spaces
  import opened Accounts
  import opened FreePages
  import opened Forks
  import opened ForkCosts
  import opened PageAllocs
  import opened Setups
  import opened KernelTables
  import opened SetupPlans
  import opened SetupSteps
  import opened UserMemory
  import opened Schedules
  import opened Runs

  /** Arguments to `try_map` that the system calls use: an aligned page with a present mapping, or nothing at all. */
  predicate PlainArgs(pa: PhysArg, p: Flags) {
    if p == NONE then pa.NoPage?
    else p.p && OnlyPWU(p) && pa.Phys? && pa.low == NONE && pa.hi < 0x10_0000
  }

  /** The translation that such a mapping gives. */
  function Mapping(pa: PhysArg, p: Flags): Translation
    requires PlainArgs(pa, p)
  {
    if p == NONE then Unmapped else Mapped(pa.hi * PAGESIZE, p)
  }

  lemma PlainPerm(p: Flags, perm: Flags)
    requires And(perm, PTE_PWU) == PTE_PWU
    ensures And(And(p, PTE_PWU), perm) == And(p, PTE_PWU)
  {
  }

  lemma MappingIsMeaning(pa: PhysArg, p: Flags, perm: Flags, v: nat)
    requires PlainArgs(pa, p) && And(And(p, PTE_PWU), perm) == And(p, PTE_PWU)
    ensures Meaning(LeafWord(pa, p), 0, perm, v * PAGESIZE) == Mapping(pa, p)
  {
    if p != NONE {
      assert LeafWord(pa, p) == Word(pa.hi, p);
      CommonPerm(p, perm);
    }
  }

  lemma CommonPerm(p: Flags, perm: Flags)
    requires OnlyPWU(p) && And(And(p, PTE_PWU), perm) == And(p, PTE_PWU)
    ensures And(perm, p) == p
  {
  }

  /** Remapping a page below MEMSIZE_VIRTUAL changes nothing beyond it. */
  lemma RemapBeyond(mem: Mem, mem': Mem, root: nat, lay: Layout, v: nat, w: Word, perm: Flags)
    requires v < lay.memVirtual && Remapped(mem, mem', root, v * PAGESIZE, w, perm)
    ensures SameBeyond(mem, mem', root, lay)
  {
    forall va: nat | lay.memVirtual * PAGESIZE <= va < VA_END
      ensures Translate(mem', root, va) == Translate(mem, root, va)
    {
      OtherPage(v, lay.memVirtual, va);
    }
  }

  lemma OtherPage(v: nat, n: nat, va: nat)
    requires v < n && n * PAGESIZE <= va
    ensures va / PAGESIZE != v * PAGESIZE / PAGESIZE
  {
  }

  lemma NamedForked(ptable: seq<Proc>, ptable': seq<Proc>, pid: nat, slot: nat)
    requires Named(ptable) && pid < |ptable| && ForkedInto(ptable, ptable', pid, slot)
    ensures Named(ptable') && |ptable'| == |ptable|
  {
  }

  lemma NamedUnused(ptable: seq<Proc>, ptable': seq<Proc>)
    requires Named(ptable) && SlotUnused(ptable, ptable')
    ensures Named(ptable') && |ptable'| == |ptable|
  {
  }

  lemma NextPage(lay: Layout, page: nat)
    requires page < lay.memVirtual && lay.memVirtual * PAGESIZE <= VA_LOWEND
    ensures (page + 1) * PAGESIZE == page * PAGESIZE + PAGESIZE && page * PAGESIZE + PAGESIZE < VA_END
  {
  }

  lemma PageOf(lay: Layout, addr: nat)
    requires addr % PAGESIZE == 0 && lay.procStart * PAGESIZE <= addr < lay.memVirtual * PAGESIZE
               && lay.memVirtual * PAGESIZE <= VA_LOWEND
    ensures lay.procStart <= addr / PAGESIZE < lay.memVirtual && addr == addr / PAGESIZE * PAGESIZE && addr < VA_END
  {
  }

  lemma NamedSet(ptable: seq<Proc>, pid: nat, p: Proc)
    requires Named(ptable) && pid < |ptable| && p.pid == pid
    ensures Named(ptable[pid := p])
  {
  }

  lemma NamedFreed(ptable: seq<Proc>, pid: nat)
    requires Named(ptable) && pid < |ptable|
    ensures Named(ptable[pid := ptable[pid].(state := Free)])
  {
  }

  /** How a step ends: as it should, in a panic, in a setup that breaks the accounts, or in a fork that wraps a
      counter. */
  datatype Outcome = Normal | Panicked | Spoilt | Overflowed

  /** How a fork, or a part of it, ends: as it should, for want of memory, or with a counter that has wrapped around. */
  datatype Copied = Complete | NoMemory | Wrapped

  class Kernel {
    const m: Machine
    const lay: Layout
    const kernelPt: nat
    var ptable: seq<Proc>
    var current: nat

    /** The process table as `kernel` initializes it: every slot free. With no page counted yet, the invariant holds. */
    constructor (m: Machine, lay: Layout, kernelPt: nat)
      requires lay.Ok() && lay.procStart < lay.memVirtual && lay.console < m.npages
      requires m.Valid() && KernelTable(m, m.mem, kernelPt, lay) && forall f :: 0 <= f < m.npages ==> m.refs[f] == 0
      ensures this.m == m && this.lay == lay && this.kernelPt == kernelPt && Inv()
      ensures |ptable| == lay.nproc && (forall i :: 0 <= i < lay.nproc ==> ptable[i].state.Free?) && current == 0
    {
      this.m := m;
      this.lay := lay;
      this.kernelPt := kernelPt;
      this.ptable := seq(lay.nproc, (i: nat) => Proc(i, 0, Free, Regs(0, [])));
      this.current := 0;
      new;
      BootIsGood(m, m.mem, m.refs, ptable, lay);
    }

    /** `try_map` at page `v`, with arguments that the tables above the page do not restrict. */
    method IterTryMap(it: VmIter, v: nat, pa: PhysArg, p: Flags) returns (r: int, ghost added: seq<nat>)
      requires lay.Ok() && m.Valid() && v < lay.memVirtual
      requires it.m == m && it.AtFresh() && it.va == v * PAGESIZE
      requires Tidy(m.mem, it.pt) && Rooted(m, it.pt) && PlainArgs(pa, p)
      modifies m, it
      ensures m.Valid() && Tidy(m.mem, it.pt) && Rooted(m, it.pt) && it.AtFresh() && it.va == v * PAGESIZE
      ensures Gained(old(m.mem), old(m.refs), m, it.pt, added)
      ensures r == 0 || r == -1
      ensures r == -1 ==> SameTranslation(old(m.mem), m.mem, it.pt)
      ensures r == -1 ==> p != NONE && m.Full() && |added| < old(it.level)
      ensures r == 0 && (p != NONE || old(it.level) == 0) ==>
                Remapped(old(m.mem), m.mem, it.pt, v * PAGESIZE, LeafWord(pa, p), it.perm)
                    && And(And(p, PTE_PWU), it.perm) == And(p, PTE_PWU)
      ensures r == 0 && p == NONE && old(it.level) > 0 ==> m.mem == old(m.mem)
      ensures r == 0 && p != NONE ==> |added| == old(it.level)
      ensures Deepened(old(m.mem), m.mem, it.pt, v * PAGESIZE, |added|, p, r == 0)
    {
      hide Remapped, SameTranslation, Accounted, Rooted, Extended, SameLevels, SameLeaves;
      assert TidyAt(m.mem, it.pt, PathOf(v * PAGESIZE));
      PlainPerm(p, it.perm);
      assert Initialized(PhysWord(pa));
      r, added := it.TryMap(pa, p);
    }

    /** `it.try_map(pa, p)` at page `v`, for the arguments that the system calls use: afterwards the view
        has the new mapping at `v`; or memory is full and the view is as before. */
    method MapAt(it: VmIter, v: nat, pa: PhysArg, p: Flags) returns (r: int, ghost added: seq<nat>)
      requires lay.Ok() && m.Valid() && v < lay.memVirtual
      requires it.m == m && it.AtFresh() && it.va == v * PAGESIZE
      requires Tidy(m.mem, it.pt) && Rooted(m, it.pt) && PlainArgs(pa, p)
      modifies m, it
      ensures m.Valid() && Tidy(m.mem, it.pt) && Rooted(m, it.pt) && it.AtFresh() && it.va == v * PAGESIZE
      ensures Gained(old(m.mem), old(m.refs), m, it.pt, added)
      ensures r == 0 || r == -1
      ensures r == 0 ==>
                View(m.mem, it.pt, lay.memVirtual)
                == old(View(m.mem, it.pt, lay.memVirtual))[v := Mapping(pa, p)]
      ensures r == -1 ==> View(m.mem, it.pt, lay.memVirtual) == old(View(m.mem, it.pt, lay.memVirtual))
      ensures SameBeyond(old(m.mem), m.mem, it.pt, lay)
      ensures r == -1 ==> p != NONE && m.Full() && |added| < old(it.level)
      ensures r == 0 && p != NONE ==> |added| == old(it.level)
      ensures Deepened(old(m.mem), m.mem, it.pt, v * PAGESIZE, |added|, p, r == 0)
    {
      hide Deepened;
      ghost var mem0, level0 := m.mem, it.level;
      r, added := IterTryMap(it, v, pa, p);
      if r == -1 {
        SameView(mem0, m.mem, it.pt, lay.memVirtual);
      } else if p != NONE || level0 == 0 {
        MappingIsMeaning(pa, p, it.perm, v);
        RemapView(mem0, m.mem, it.pt, lay.memVirtual, v, LeafWord(pa, p), it.perm);
        RemapBeyond(mem0, m.mem, it.pt, lay, v, LeafWord(pa, p), it.perm);
      } else {
        DeepIsUnmapped(mem0, it.pt, lay.memVirtual, v);
      }
    }

    /** `vmiter(pt, va)`. */
    method NewIter(root: nat, va: nat) returns (it: VmIter)
      requires va < VA_END && TableInitialized(m.mem, root)
      ensures fresh(it) && it.m == m && it.pt == root && it.va == va && it.AtFresh()
      ensures Cursor(it.slot, it.level, it.perm) == FreshCursor(m.mem, root, va)
    {
      it := new VmIter(m, root, va);
    }

    /** `vmiter(pt, va).try_map(pa, p)` at page `v`. */
    method MapPage(root: nat, v: nat, pa: PhysArg, p: Flags) returns (r: int, ghost added: seq<nat>)
      requires lay.Ok() && m.Valid() && v < lay.memVirtual
      requires Tidy(m.mem, root) && Rooted(m, root) && PlainArgs(pa, p)
      modifies m
      ensures m.Valid() && Tidy(m.mem, root) && Rooted(m, root)
      ensures Gained(old(m.mem), old(m.refs), m, root, added)
      ensures r == 0 || r == -1
      ensures r == 0 ==>
                View(m.mem, root, lay.memVirtual)
                == old(View(m.mem, root, lay.memVirtual))[v := Mapping(pa, p)]
      ensures r == -1 ==> View(m.mem, root, lay.memVirtual) == old(View(m.mem, root, lay.memVirtual))
      ensures SameBeyond(old(m.mem), m.mem, root, lay)
      ensures r == -1 ==> p != NONE && m.Full()
      ensures Deepened(old(m.mem), m.mem, root, v * PAGESIZE, |added|, p, r == 0)
    {
      TidyIsInitialized(m.mem, root);
      var it := NewIter(root, v * PAGESIZE);
      r, added := MapAt(it, v, pa, p);
    }

    /** Drops the page that the iterator's address maps for the user, if any. */
    method ReleaseAt(it: VmIter, ghost v: nat, ghost t: Translation)
      requires lay.Ok() && m.Valid() && Tidy(m.mem, it.pt)
      requires it.m == m && it.AtFresh() && it.va == v * PAGESIZE && lay.procStart <= v < lay.memVirtual
      requires t == PageAt(m.mem, it.pt, v)
      requires User(t) ==> m.Allocatable(FrameIn(t)) && m.refs[FrameIn(t)] > 0
      modifies m
      ensures m.Valid() && m.mem == old(m.mem)
      ensures m.refs == if User(t) then old(m.refs)[FrameIn(t) := old(m.refs)[FrameIn(t)] - 1] else old(m.refs)
    {
      assert TidyAt(m.mem, it.pt, PathOf(v * PAGESIZE));
      AccessorsAt(m.mem, it.pt, v);
      if it.Has(PTE_PU) && it.va != lay.console * PAGESIZE {
        m.Kfree(it.Pa().hi);
      }
    }

    /** One turn of the loop over user mappings. */
    method ReleaseStep(it: VmIter, ghost view: seq<Translation>, ghost v: nat, ghost refs0: seq<nat>)
      requires lay.Ok() && m.Valid() && Tidy(m.mem, it.pt)
      requires it.m == m && it.AtFresh() && it.va == v * PAGESIZE && lay.procStart <= v < lay.memVirtual
      requires view == View(m.mem, it.pt, lay.memVirtual)
      requires forall f :: f in UserBag(view, lay) ==> m.Allocatable(f)
      requires |refs0| == m.npages && forall f :: 0 <= f < m.npages ==> UserBag(view, lay)[f] <= refs0[f]
      requires Dropped(refs0, m.refs, UserFrames(view, lay.procStart, v))
      modifies m, it
      ensures m.Valid() && m.mem == old(m.mem)
      ensures it.AtFresh() && it.va == (v + 1) * PAGESIZE
      ensures Dropped(refs0, m.refs, UserFrames(view, lay.procStart, v + 1))
    {
      ghost var refs1 := m.refs;
      ViewAt(m.mem, it.pt, lay.memVirtual, v);
      NextUserFrame(view, refs0, refs1, lay, v);
      ReleaseAt(it, v, view[v]);
      DropNext(view, refs0, refs1, m.refs, lay.procStart, v);
      TidyIsInitialized(m.mem, it.pt);
      it.RealFind(it.va + PAGESIZE);
    }

    /** The loop of `syscall_exit_assist` over user mappings. */
    method ReleaseUserPages(root: nat, ghost view: seq<Translation>)
      requires lay.Ok() && m.Valid() && Tidy(m.mem, root)
      requires view == View(m.mem, root, lay.memVirtual)
      requires forall f :: f in UserBag(view, lay) ==> m.Allocatable(f)
      requires forall f :: 0 <= f < m.npages ==> UserBag(view, lay)[f] <= m.refs[f]
      modifies m
      ensures m.Valid() && m.mem == old(m.mem)
      ensures Dropped(old(m.refs), m.refs, UserBag(view, lay))
    {
      ghost var mem0, refs0 := m.mem, m.refs;
      TidyIsInitialized(mem0, root);
      var it := new VmIter(m, root, lay.procStart * PAGESIZE);
      ghost var v := lay.procStart;
      while it.va < lay.memVirtual * PAGESIZE
        invariant lay.procStart <= v <= lay.memVirtual && it.va == v * PAGESIZE
        invariant it.m == m && it.pt == root && it.AtFresh()
        invariant m.Valid() && m.mem == mem0
        invariant Dropped(refs0, m.refs, UserFrames(view, lay.procStart, v))
        decreases lay.memVirtual - v
      {
        ReleaseStep(it, view, v, refs0);
        v := v + 1;
      }
      assert v == lay.memVirtual;
    }

    /** Frees the page-table page `x`, the next in the list `all`. */
    method ReleaseListed(x: nat, ghost all: seq<nat>, ghost gone: seq<nat>, ghost refs0: seq<nat>)
      requires m.Valid() && m.Allocatable(x) && gone + [x] <= all && Freeable(all, refs0)
      requires Dropped(refs0, m.refs, multiset(gone))
      modifies m
      ensures m.Valid() && m.mem == old(m.mem)
      ensures Dropped(refs0, m.refs, multiset(gone + [x]))
    {
      ghost var refs1 := m.refs;
      NextListed(all, gone, x, refs0, refs1);
      m.Kfree(x);
      DropOne(refs0, refs1, m.refs, multiset(gone), x);
      assert multiset(gone + [x]) == multiset(gone) + multiset{x};
    }

    /** The table pages `gone` are freed, and the iterator is about to yield the others of `all`, the root apart. */
    ghost predicate Walking(it: PtIter, gone: seq<nat>, all: seq<nat>)
      reads it, it.m
    {
      && it.m == m && it.Valid()
      && if it.Active() then gone + ([it.Pa()] + (it.pending + [it.pt])) == all else gone + [it.pt] == all
    }

    /** Every page in the list can be freed once. */
    ghost predicate Freeable(all: seq<nat>, refs0: seq<nat>) {
      && |refs0| == m.npages && (forall f :: f in all ==> m.Allocatable(f))
      && forall f :: 0 <= f < m.npages ==> multiset(all)[f] <= refs0[f]
    }

    /** `ptiter it(release_table)`. */
    method StartWalk(root: nat, ghost all: seq<nat>) returns (it: PtIter)
      requires all == Pages(m.mem, root, 3)
      ensures fresh(it) && it.pt == root && it.snap == m.mem && Walking(it, [], all)
    {
      FromStart(m.mem, root);
      it := new PtIter(m, root, 0);
      if it.Active() {
        Begin(From(m.mem, root, 3, PathOf(0)), it.Pa(), it.pending, root, all);
      }
    }

    /** One turn of the loop over table pages: the page that the iterator is at is freed, then the iterator moves on. */
    method ReleaseTableStep(it: PtIter, ghost all: seq<nat>, ghost gone: seq<nat>, ghost refs0: seq<nat>)
      requires m.Valid() && it.Active() && Walking(it, gone, all) && it.snap == m.mem && Freeable(all, refs0)
      requires Dropped(refs0, m.refs, multiset(gone))
      modifies m, it
      ensures m.Valid() && m.mem == old(m.mem) && it.snap == m.mem && Walking(it, gone + [old(it.Pa())], all)
      ensures Dropped(refs0, m.refs, multiset(gone + [old(it.Pa())])) && |gone| < |all|
    {
      ghost var x, rest := it.Pa(), it.pending;
      Prefix(gone, x, rest + [it.pt], all);
      ReleaseListed(it.Pa(), all, gone, refs0);
      assert it.InSync();
      it.Next();
      if rest == [] {
        Shift(gone, x, rest, 0, [], it.pt, all);
      } else {
        Shift(gone, x, rest, it.Pa(), it.pending, it.pt, all);
      }
    }

    /** The loop of `syscall_exit_assist` over table pages: each is freed as it is yielded. */
    method ReleaseTables(root: nat, ghost all: seq<nat>)
      requires m.Valid() && all == Pages(m.mem, root, 3) && Freeable(all, m.refs)
      modifies m
      ensures m.Valid() && m.mem == old(m.mem)
      ensures Dropped(old(m.refs), m.refs, multiset(all))
    {
      hide *;
      ghost var refs0 := m.refs;
      var it := StartWalk(root, all);
      ghost var gone := [];
      NothingDropped(refs0, gone);
      while it.Active()
        invariant it.pt == root && Walking(it, gone, all) && it.snap == m.mem && m.Valid() && m.mem == old(m.mem)
        invariant Dropped(refs0, m.refs, multiset(gone))
        decreases |all| - |gone|
      {
        ghost var x := it.Pa();
        ReleaseTableStep(it, all, gone, refs0);
        gone := gone + [x];
      }
      LastListed(it, gone, all, refs0);
      ReleaseListed(root, all, gone, refs0);
    }

    /** When the walk is over, only the root is left. */
    lemma LastListed(it: PtIter, gone: seq<nat>, all: seq<nat>, refs0: seq<nat>)
      requires Walking(it, gone, all) && !it.Active() && Freeable(all, refs0)
      ensures gone + [it.pt] == all && m.Allocatable(it.pt)
    {
      Prefix(gone, it.pt, [], all);
    }

    /** `syscall_exit_assist` up to the state change: every use of the address space is dropped once. */
    method ReleaseSpace(root: nat)
      requires lay.Ok() && m.Valid() && Tidy(m.mem, root)
      requires forall f :: f in Uses(m.mem, root, lay) ==> m.Allocatable(f)
      requires forall f :: 0 <= f < m.npages ==> Uses(m.mem, root, lay)[f] <= m.refs[f]
      modifies m
      ensures m.Valid() && m.mem == old(m.mem)
      ensures Dropped(old(m.refs), m.refs, Uses(m.mem, root, lay))
    {
      hide *;
      ghost var refs0 := m.refs;
      Counters(m);
      ghost var view, all := View(m.mem, root, lay.memVirtual), Pages(m.mem, root, 3);
      SplitUses(m, m.mem, m.refs, root, lay);
      ReleaseUserPages(root, view);
      ghost var refs1 := m.refs;
      StillCounted(refs0, refs1, UserBag(view, lay), multiset(all));
      CanFree(all, refs1);
      ReleaseTables(root, all);
      BothDropped(refs0, refs1, m.refs, UserBag(view, lay), multiset(all));
      UsesAreBoth(m.mem, root, lay);
    }

    lemma CanFree(all: seq<nat>, refs: seq<nat>)
      requires |refs| == m.npages && (forall f :: f in all ==> m.Allocatable(f))
      requires forall f :: 0 <= f < |refs| ==> multiset(all)[f] <= refs[f]
      ensures Freeable(all, refs)
    {
    }

    /** What steps change. */
    function Snap(): Snapshot
      reads this, m
    {
      Snapshot(m.mem, m.refs, ptable, current)
    }

    /** The kernel between two steps. */
    ghost predicate Inv()
      reads this, m
    {
      m.Valid() && Steady(m, lay, kernelPt, Snap())
    }

    method ReleaseProcess(pid: nat)
      requires m.Valid() && Good(m, m.mem, m.refs, ptable, lay) && Live(ptable, pid)
      modifies m
      ensures m.Valid() && m.mem == old(m.mem)
      ensures Dropped(old(m.refs), m.refs, Uses(m.mem, ptable[pid].pagetable, lay))
      ensures Good(m, m.mem, m.refs, ptable[pid := ptable[pid].(state := Free)], lay)
      ensures Keeps(m, old(m.mem), old(m.refs), ptable, m.mem, m.refs, ptable[pid := ptable[pid].(state := Free)], lay)
    {
      hide *;
      ghost var refs0 := m.refs;
      LiveSlot(ptable, pid);
      GoodLayout(m, m.mem, m.refs, ptable, lay);
      Releasable(m, m.mem, m.refs, ptable, lay, pid);
      ReleaseSpace(ptable[pid].pagetable);
      ExitKeepsGood(m, m.mem, refs0, m.refs, ptable, lay, pid, ptable[pid].(state := Free));
    }

    /** `syscall_exit_assist` for a live process: its uses are dropped, and nothing else changes. */
    method SyscallExitAssist(pid: nat)
      requires Inv() && Live(ptable, pid)
      modifies m, this`ptable
      ensures Inv() && Keeps(m, old(m.mem), old(m.refs), old(ptable), m.mem, m.refs, ptable, lay)
      ensures m.mem == old(m.mem) && ptable == old(ptable)[pid := old(ptable)[pid].(state := Free)]
      ensures Dropped(old(m.refs), m.refs, Uses(m.mem, old(ptable)[pid].pagetable, lay))
    {
      hide Good, KernelTable, Dropped, Uses, Keeps, Exact;
      ghost var mem0, refs0, ptable0 := m.mem, m.refs, ptable;
      NamedFreed(ptable, pid);
      ReleaseProcess(pid);
      ptable := ptable[pid := ptable[pid].(state := Free)];
      KeepsExact(m, mem0, refs0, ptable0, m.mem, m.refs, ptable, lay);
    }

    /** Maps page `v` of the child; on failure the copy is where it was, and memory was too small for it. */
    method MapChild(ghost k: Fork, child: nat, ghost extra: multiset<nat>, ghost hand: nat, v: nat, pa: PhysArg,
                    p: Flags)
        returns (r: int, ghost added: seq<nat>)
      requires lay.Ok() && m.Valid() && k.Started(m, lay) && k.pid < |k.ptable| && child == k.child
                 && v < lay.memVirtual
      requires Copying(m, k, lay, m.mem, m.refs, v, extra) && Ledger(m, k, lay, m.mem, m.refs, v, hand)
                 && PlainArgs(pa, p)
      requires p != NONE <==> k.ParentView(lay)[v].Mapped?
      requires hand == if Separate(k.ParentView(lay)[v], v, lay) then 1 else 0
      modifies m
      ensures m.Valid() && (r == 0 || r == -1)
      ensures r == 0 ==> MapEffect(m, old(m.mem), old(m.refs), m.mem, m.refs, child, lay, added,
                                   old(View(m.mem, child, lay.memVirtual))[v := Mapping(pa, p)])
      ensures r == 0 ==> Ledger(m, k, lay, m.mem, m.refs, v + 1, 0)
      ensures r == -1 ==> Short(m, k, lay, v + 1) && Copying(m, k, lay, m.mem, m.refs, v, extra)
    {
      hide Good, Ledger, Short, Deepened, ChildSound, Counts, Progress, SameBeyond, Tidy;
      ghost var mem0, refs0 := m.mem, m.refs;
      ChildRooted(m, k, lay, m.mem, m.refs, extra);
      r, added := MapPage(child, v, pa, p);
      if r == -1 {
        MapFailed(m, k, lay, mem0, refs0, v, extra, m.mem, m.refs, added);
        LedgerFails(m, k, lay, mem0, refs0, v, hand, m.mem, m.refs, added, p);
      } else {
        LedgerMaps(m, k, lay, mem0, refs0, v, hand, m.mem, m.refs, added, p);
      }
    }

    /** What the parent's iterator `it` at page `v` reads, in terms of the parent's view. */
    ghost predicate Reads(it: VmIter, k: Fork, v: nat)
      requires k.pid < |k.ptable| && v < lay.memVirtual
      reads it, m
    {
      var t := k.ParentView(lay)[v];
      && it.m == m && it.level <= 3 && it.va == v * PAGESIZE
      && (Present(it.Entry()) <==> t.Mapped?)
      && (it.Has(PTE_PU) <==> User(t))
      && (it.Has(PTE_PW) <==> Writable(t))
      && PlainArgs(it.Pa(), it.Perm()) && Mapping(it.Pa(), it.Perm()) == t
      && (t.Mapped? ==>
          it.Pa().Phys? && it.Pa().hi == FrameIn(t) && it.Perm() == t.perm
          && PlainArgs(Phys(0, NONE), t.perm))
    }

    /** The iterator of the fork over the parent's table, which the fork does not touch. */
    ghost predicate AtVa(it: VmIter, k: Fork, va: nat)
      requires k.pid < |k.ptable|
      reads it
    {
      && it.m == m && it.pt == k.ptable[k.pid].pagetable && it.va == va
      && Cursor(it.slot, it.level, it.perm) == FreshCursor(k.mem0, it.pt, va)
    }

    lemma AtPageReads(it: VmIter, k: Fork, v: nat)
      requires m.Valid() && k.Started(m, lay) && v < lay.memVirtual && KeepsUsed(m, k.mem0, k.refs0, m.mem)
                 && AtVa(it, k, v * PAGESIZE)
      ensures Reads(it, k, v)
    {
      ParentStays(m, k, lay, m.mem, it.va);
      ParentProper(m, k, lay, v);
      assert TidyAt(m.mem, it.pt, PathOf(v * PAGESIZE));
      AccessorsAt(m.mem, it.pt, v);
      ViewAt(m.mem, it.pt, lay.memVirtual, v);
      PageArgs(it, k.ParentView(lay)[v], v);
    }

    lemma PageArgs(it: VmIter, t: Translation, v: nat)
      requires lay.Ok() && v < lay.memVirtual && Proper(t, v, lay) && it.m == m && it.va == v * PAGESIZE
      requires Present(it.Entry()) <==> t.Mapped?
      requires t.Mapped? ==> it.level == 0 && t.perm == And(it.perm, it.Entry().flags)
                             && t.pa == FrameOf(it.Entry()) * PAGESIZE && FrameIn(t) < 0x10_0000
      requires it.level <= 3
      ensures PlainArgs(it.Pa(), it.Perm()) && Mapping(it.Pa(), it.Perm()) == t
      ensures t.Mapped? ==>
                it.Pa().Phys? && it.Pa().hi == FrameIn(t) && it.Perm() == t.perm
                && PlainArgs(Phys(0, NONE), t.perm)
    {
      if t.Mapped? {
        AlignedPage(FrameOf(it.Entry()), v);
      }
    }

    /** A present read-only page: the child shares it. If its counter wraps around, the accounts are lost, and the
        description of the fork ends there. */
    method ShareAt(ghost k: Fork, child: nat, v: nat, pa: PhysArg, p: Flags) returns (c: Copied)
      requires lay.Ok() && m.Valid() && k.Started(m, lay) && k.pid < |k.ptable| && child == k.child
                 && v < lay.memVirtual
      requires Copying(m, k, lay, m.mem, m.refs, v, multiset{}) && Ledger(m, k, lay, m.mem, m.refs, v, 0)
      requires PlainArgs(pa, p) && p != NONE && Mapping(pa, p) == k.ParentView(lay)[v]
      requires var t := k.ParentView(lay)[v]; t.Mapped? && !Writable(t) && pa.Phys? && pa.hi == FrameIn(t)
      modifies m
      ensures c.Complete? ==>
                && m.Valid() && Copying(m, k, lay, m.mem, m.refs, v + 1, multiset{})
                    && Ledger(m, k, lay, m.mem, m.refs, v + 1, 0)
                && !Saturated(k.refs0, k.ParentView(lay)[v])
      ensures c.NoMemory? ==> m.Valid() && Copying(m, k, lay, m.mem, m.refs, v, multiset{}) && Short(m, k, lay, v + 1)
      ensures c.Wrapped? ==> WrapsAt(m, k.refs0, k.ParentView(lay), lay, v) && !Good(m, m.mem, m.refs, k.ptable, lay)
    {
      hide Ledger, Short, Good, ChildSound, Counts, Progress, Tidy, SameBeyond, Settles, View, PlainArgs, Mapping,
           Accounted;
      hide MapEffect, Copying, WrapsAt, Cost;
      ghost var mem0, refs0 := m.mem, m.refs;
      var r, added := MapChild(k, child, multiset{}, 0, v, pa, p);
      if r == -1 {
        return NoMemory;
      }
      ghost var refs1 := m.refs;
      EffectAccounts(m, mem0, refs0, m.mem, m.refs, child, lay, added,
                     View(mem0, child, lay.memVirtual)[v := Mapping(pa, p)]);
      ShareFacts(m, k, lay, mem0, refs0, v, m.mem, m.refs, added);
      var last := m.refs[pa.hi] + 1 == REFCOUNT_END;
      m.AddReference(pa.hi);
      if last {
        ShareWraps(k, mem0, refs0, v, refs1, added, View(mem0, child, lay.memVirtual)[v := Mapping(pa, p)]);
        return Wrapped;
      }
      LedgerShares(m, k, lay, m.mem, refs1, v + 1, pa.hi, m.refs[pa.hi]);
      CountedOnce(refs1, m.refs, pa.hi);
      ShareDone(m, k, lay, mem0, refs0, v, m.mem, refs1, added, pa.hi, m.refs);
      c := Complete;
    }

    /** The counter of the page shared was at its end. */
    lemma ShareWraps(k: Fork, mem0: Mem, refs0: seq<nat>, v: nat, refs1: seq<nat>, added: seq<nat>,
                     view': seq<Translation>)
      requires k.Started(m, lay) && k.pid < |k.ptable| && v < lay.memVirtual
                 && Copying(m, k, lay, mem0, refs0, v, multiset{})
      requires MapEffect(m, mem0, refs0, m.mem, refs1, k.child, lay, added, view')
      requires Ledger(m, k, lay, m.mem, refs1, v + 1, 0) && |m.refs| == m.npages == |k.refs0|
      requires var t := k.ParentView(lay)[v];
               && t.Mapped? && !Writable(t) && FrameIn(t) < m.npages
               && k.refs0[FrameIn(t)] + 1 == REFCOUNT_END && m.refs[FrameIn(t)] == 0
      ensures WrapsAt(m, k.refs0, k.ParentView(lay), lay, v) && !Good(m, m.mem, m.refs, k.ptable, lay)
    {
      hide Good, Mirrors, Progress, View;
      AddedWereFree(m, k, lay, mem0, refs0, multiset{}, m.mem, refs1, added, view');
      WrappedIsBad(m, k, lay, m.mem, m.refs, v);
    }

    /** The console, a kernel page, or an absent page: the child gets the same entry. */
    method PlainAt(ghost k: Fork, child: nat, v: nat, pa: PhysArg, p: Flags) returns (c: Copied)
      requires m.Valid() && k.Started(m, lay) && child == k.child && v < lay.memVirtual
      requires Copying(m, k, lay, m.mem, m.refs, v, multiset{}) && Ledger(m, k, lay, m.mem, m.refs, v, 0)
      requires PlainArgs(pa, p) && Mapping(pa, p) == k.ParentView(lay)[v]
      requires User(k.ParentView(lay)[v]) ==> v == lay.console
      modifies m
      ensures m.Valid() && !c.Wrapped? && if c.Complete? then Ledger(m, k, lay, m.mem, m.refs, v + 1, 0)
                else Short(m, k, lay, v + 1)
      ensures Copying(m, k, lay, m.mem, m.refs, if c.Complete? then v + 1 else v, multiset{})
    {
      hide Ledger, Short;
      ghost var mem0, refs0 := m.mem, m.refs;
      var r, added := MapChild(k, child, multiset{}, 0, v, pa, p);
      if r == -1 {
        return NoMemory;
      }
      PlainDone(m, k, lay, mem0, refs0, v, m.mem, m.refs, added);
      c := Complete;
    }

    /** Takes a page and fills it with the bytes of page `src`; null when memory is full. */
    method GrabCopy(src: nat) returns (pa: nat)
      requires m.Valid() && src < m.npages && m.refs[src] != 0
      modifies m
      ensures m.Valid()
      ensures pa == 0 ==> m.Full() && m.mem == old(m.mem) && m.refs == old(m.refs)
      ensures pa != 0 ==> m.Allocatable(pa) && old(m.refs)[pa] == 0 && m.refs == old(m.refs)[pa := 1]
      ensures pa != 0 ==> m.mem[pa] == old(m.mem)[src] && forall g :: 0 <= g < m.npages && g != pa ==>
                m.mem[g] == old(m.mem)[g]
    {
      pa := m.Kalloc(PAGESIZE);
      if pa != 0 {
        m.StorePage(pa, m.mem[src]);
      }
    }

    /** The page in hand for a writable user page `src` of the parent. */
    method TakeCopy(ghost k: Fork, ghost v: nat, src: nat) returns (pa: nat)
      requires m.Valid() && k.Started(m, lay) && v < lay.memVirtual && Copying(m, k, lay, m.mem, m.refs, v, multiset{})
      requires src < m.npages && k.refs0[src] != 0
      requires Ledger(m, k, lay, m.mem, m.refs, v, 0) && Separate(k.ParentView(lay)[v], v, lay)
      modifies m
      ensures m.Valid()
      ensures pa == 0 ==> Short(m, k, lay, v + 1) && m.mem == old(m.mem) && m.refs == old(m.refs)
      ensures pa != 0 ==> Ledger(m, k, lay, m.mem, m.refs, v, 1)
      ensures pa != 0 ==>
                m.Allocatable(pa) && k.refs0[pa] == 0 && m.mem[pa] == k.mem0[src]
                && Uses(m.mem, k.child, lay)[pa] == 0
      ensures pa != 0 ==> Copying(m, k, lay, m.mem, m.refs, v, multiset{pa})
    {
      ghost var mem0, refs0 := m.mem, m.refs;
      SourceStays(m, k, lay, mem0, refs0, multiset{}, src);
      hide Ledger, Short;
      pa := GrabCopy(src);
      if pa != 0 {
        TakePage(m, k, lay, mem0, refs0, v, m.mem, m.refs, pa);
        TakeAgrees(m, k, lay, mem0, refs0, m.mem, pa);
        LedgerTakes(m, k, lay, mem0, refs0, v, m.mem, pa);
      } else {
        LedgerEmpty(m, k, lay, m.mem, m.refs, v);
      }
    }

    /** A writable user page: the child gets a copy. On failure after the page was taken, `hand` is that page. */
    method CopyAt(ghost k: Fork, child: nat, v: nat, src: nat, p: Flags) returns (c: Copied, hand: nat)
      requires lay.Ok() && m.Valid() && k.Started(m, lay) && k.pid < |k.ptable| && child == k.child
                 && v < lay.memVirtual
      requires Copying(m, k, lay, m.mem, m.refs, v, multiset{}) && Ledger(m, k, lay, m.mem, m.refs, v, 0)
      requires var t := k.ParentView(lay)[v];
               t.Mapped? && Separate(t, v, lay) && src == FrameIn(t) && p == t.perm && PlainArgs(Phys(0, NONE), p)
      modifies m
      ensures m.Valid() && !c.Wrapped? && (c.NoMemory? ==> Short(m, k, lay, v + 1))
                && (hand != 0 ==> m.Allocatable(hand))
      ensures c.Complete? ==>
                Copying(m, k, lay, m.mem, m.refs, v + 1, multiset{})
                && Ledger(m, k, lay, m.mem, m.refs, v + 1, 0)
      ensures c.NoMemory? ==> Copying(m, k, lay, m.mem, m.refs, v, InHand(hand))
    {
      hide Ledger, Short, Good, Copying, Tidy, SameBeyond, MapEffect, View;
      hand := 0;
      ParentProper(m, k, lay, v);
      SeparateIsHigh(k.ParentView(lay)[v], k.ParentView(lay)[v], v, lay);
      ParentFrame(m, k, lay, v);
      var pa := TakeCopy(k, v, src);
      if pa == 0 {
        return NoMemory, 0;
      }
      ghost var mem1, refs1 := m.mem, m.refs;
      var r, added := MapChild(k, child, multiset{pa}, 1, v, Phys(pa, NONE), p);
      if r == -1 {
        return NoMemory, pa;
      }
      PrivateDone(m, k, lay, mem1, refs1, v, m.mem, m.refs, added, pa);
      c := Complete;
    }

    /** One turn of the loop in `syscall_fork`, without the clean-up after a failure. */
    method CopyPage(it: VmIter, ghost k: Fork, child: nat, v: nat) returns (c: Copied, hand: nat)
      requires m.Valid() && k.Started(m, lay) && child == k.child && v < lay.memVirtual
      requires Copying(m, k, lay, m.mem, m.refs, v, multiset{}) && Ledger(m, k, lay, m.mem, m.refs, v, 0)
                 && Reads(it, k, v)
      requires NoWrap(m, k, lay, v)
      modifies m
      ensures hand != 0 ==> m.Allocatable(hand)
      ensures c.Complete? ==>
                && m.Valid() && Copying(m, k, lay, m.mem, m.refs, v + 1, multiset{})
                    && Ledger(m, k, lay, m.mem, m.refs, v + 1, 0)
                && NoWrap(m, k, lay, v + 1)
      ensures c.NoMemory? ==> m.Valid() && Copying(m, k, lay, m.mem, m.refs, v, InHand(hand)) && Short(m, k, lay, v + 1)
      ensures c.Wrapped? ==> WrapsAt(m, k.refs0, k.ParentView(lay), lay, v) && !Good(m, m.mem, m.refs, k.ptable, lay)
    {
      hide Ledger, Short, NoWrap, WrapsAt, Copying, Good;
      hand := 0;
      ParentProper(m, k, lay, v);
      if Present(it.Entry()) && !it.Has(PTE_PW) {
        c := ShareAt(k, child, v, it.Pa(), it.Perm());
      } else if it.Has(PTE_PU) {
        if it.va == lay.console * PAGESIZE {
          c := PlainAt(k, child, v, Phys(lay.console, NONE), it.Perm());
        } else {
          c, hand := CopyAt(k, child, v, it.Pa().hi, it.Perm());
        }
      } else {
        c := PlainAt(k, child, v, it.Pa(), it.Perm());
      }
      if c.Complete? {
        NoWrapMore(m, k, lay, v);
      }
    }

    /** The loop of `syscall_fork`. After a failure, `v` is the page it stopped at. */
    method CopyAll(ghost k: Fork, parent: nat, child: nat) returns (c: Copied, hand: nat, ghost v: nat)
      requires m.Valid() && k.Started(m, lay) && child == k.child && parent == k.ptable[k.pid].pagetable
      requires Copying(m, k, lay, m.mem, m.refs, 0, multiset{}) && Ledger(m, k, lay, m.mem, m.refs, 0, 0)
      modifies m
      ensures hand != 0 ==> m.Allocatable(hand)
      ensures c.Complete? ==>
                && m.Valid() && Copying(m, k, lay, m.mem, m.refs, lay.memVirtual, multiset{})
                && Ledger(m, k, lay, m.mem, m.refs, lay.memVirtual, 0)
      ensures c.NoMemory? ==>
                m.Valid() && v < lay.memVirtual && Short(m, k, lay, v + 1)
                    && Copying(m, k, lay, m.mem, m.refs, v, InHand(hand))
      ensures c.Wrapped? ==> !Good(m, m.mem, m.refs, k.ptable, lay)
      ensures c.Wrapped? <==> ForkWraps(m, k.mem0, k.refs0, k.ptable[k.pid].pagetable, lay)
    {
      hide Ledger, Short, Good, ChildSound, Counts, Progress, KeepsUsed, FreshCursor, NoWrap, WrapsAt;
      CopyKeepsUsed(m, k, lay, m.mem, m.refs, 0, multiset{});
      var it := ParentIter(k, parent);
      var page := 0;
      NoWrapBegins(m, k, lay);
      while it.va < lay.memVirtual * PAGESIZE
        invariant page <= lay.memVirtual && m.Valid() && AtVa(it, k, page * PAGESIZE) && NoWrap(m, k, lay, page)
        invariant Copying(m, k, lay, m.mem, m.refs, page, multiset{}) && Ledger(m, k, lay, m.mem, m.refs, page, 0)
        decreases lay.memVirtual - page
      {
        c, hand := CopyStep(it, k, child, page);
        if !c.Complete? {
          if c.NoMemory? {
            NoWrapShort(m, k, lay, page);
          }
          return c, hand, page;
        }
        page := page + 1;
      }
      assert page == lay.memVirtual;
      NoWrapComplete(m, k, lay);
      return Complete, 0, 0;
    }

    /** `vmiter it(current->pagetable, 0)`. */
    method ParentIter(ghost k: Fork, parent: nat) returns (it: VmIter)
      requires m.Valid() && k.Started(m, lay) && KeepsUsed(m, k.mem0, k.refs0, m.mem)
                 && parent == k.ptable[k.pid].pagetable
      ensures fresh(it) && AtVa(it, k, 0)
    {
      ParentCursor(k, parent, 0);
      it := new VmIter(m, parent, 0);
    }

    /** The parent's iterator may walk, and finds what it would have found before the fork. */
    lemma ParentCursor(k: Fork, root: nat, va: nat)
      requires m.Valid() && k.Started(m, lay) && KeepsUsed(m, k.mem0, k.refs0, m.mem)
                 && root == k.ptable[k.pid].pagetable
      ensures FreshCursor(m.mem, root, va) == FreshCursor(k.mem0, root, va)
      ensures Initialized(Read(m.mem, FreshCursor(m.mem, root, va).slot))
    {
      ParentStays(m, k, lay, m.mem, va);
      TidyIsInitialized(m.mem, k.ptable[k.pid].pagetable);
    }

    /** `it.find(va)` on the parent's iterator. */
    method MoveTo(it: VmIter, ghost k: Fork, va: nat)
      requires m.Valid() && k.Started(m, lay) && KeepsUsed(m, k.mem0, k.refs0, m.mem)
      requires it.va < VA_END && va < VA_END && AtVa(it, k, it.va)
      modifies it
      ensures AtVa(it, k, va)
    {
      hide Good, KeepsUsed;
      ParentCursor(k, it.pt, it.va);
      ParentCursor(k, it.pt, va);
      it.RealFind(va);
    }

    /** One page of the loop, and the move to the next. */
    method CopyStep(it: VmIter, ghost k: Fork, child: nat, page: nat) returns (c: Copied, hand: nat)
      requires m.Valid() && k.Started(m, lay) && child == k.child && page < lay.memVirtual
      requires Copying(m, k, lay, m.mem, m.refs, page, multiset{}) && Ledger(m, k, lay, m.mem, m.refs, page, 0)
      requires AtVa(it, k, page * PAGESIZE) && NoWrap(m, k, lay, page)
      modifies m, it
      ensures hand != 0 ==> m.Allocatable(hand)
      ensures c.Complete? ==>
                && m.Valid() && Copying(m, k, lay, m.mem, m.refs, page + 1, multiset{})
                    && AtVa(it, k, (page + 1) * PAGESIZE)
                && Ledger(m, k, lay, m.mem, m.refs, page + 1, 0) && NoWrap(m, k, lay, page + 1)
      ensures c.NoMemory? ==>
                m.Valid() && Short(m, k, lay, page + 1)
                && Copying(m, k, lay, m.mem, m.refs, page, InHand(hand))
      ensures c.Wrapped? ==> WrapsAt(m, k.refs0, k.ParentView(lay), lay, page) && !Good(m, m.mem, m.refs, k.ptable, lay)
    {
      hide Ledger, Short, Good, Copying, KeepsUsed, FreshCursor, Reads, NoWrap, WrapsAt;
      CopyKeepsUsed(m, k, lay, m.mem, m.refs, page, multiset{});
      AtPageReads(it, k, page);
      c, hand := CopyPage(it, k, child, page);
      if c.Complete? {
        CopyKeepsUsed(m, k, lay, m.mem, m.refs, page + 1, multiset{});
        NextPage(lay, page);
        MoveTo(it, k, it.va + PAGESIZE);
      }
    }

    /** `syscall_exit_assist` on a partial child. */
    method ReleaseChild(ghost k: Fork, child: nat, ghost extra: multiset<nat>, ghost v: nat)
      requires lay.Ok() && m.Valid() && k.Started(m, lay) && child == k.child && v < lay.memVirtual
      requires k.pid < |k.ptable| && Copying(m, k, lay, m.mem, m.refs, v, extra)
      modifies m
      ensures m.Valid() && Raised(k.refs0, m.refs, extra) && KeepsUsed(m, k.mem0, k.refs0, m.mem)
      ensures Good(m, m.mem, k.refs0, k.ptable, lay) && SameTranslations(k.mem0, m.mem, k.ptable)
      ensures Keeps(m, k.mem0, k.refs0, k.ptable, m.mem, k.refs0, k.ptable, lay)
    {
      hide *;
      ghost var refs1 := m.refs;
      ChildReleasable(m, k, lay, m.mem, m.refs, v, extra);
      ReleaseSpace(child);
      AbandonCopy(m, k, lay, m.mem, refs1, v, extra, m.refs);
    }

    /** The clean-up after a failure: the partial child and the page in hand are freed. */
    method AbandonChild(ghost k: Fork, child: nat, hand: nat, ghost v: nat)
      requires m.Valid() && k.Started(m, lay) && child == k.child && v < lay.memVirtual
      requires Copying(m, k, lay, m.mem, m.refs, v, InHand(hand)) && (hand != 0 ==> m.Allocatable(hand))
      modifies m
      ensures m.Valid() && m.refs == k.refs0 && KeepsUsed(m, k.mem0, k.refs0, m.mem)
      ensures Good(m, m.mem, m.refs, k.ptable, lay) && SameTranslations(k.mem0, m.mem, k.ptable)
      ensures Keeps(m, k.mem0, k.refs0, k.ptable, m.mem, m.refs, k.ptable, lay)
    {
      hide Good, SameTranslations, Keeps, Copying, KeepsUsed, Raised;
      ReleaseChild(k, child, InHand(hand), v);
      ghost var refs2 := m.refs;
      if hand != 0 {
        HandCounted(k.refs0, m.refs, hand);
        m.Kfree(hand);
      }
      HandReturned(m, k.refs0, refs2, m.refs, hand);
    }

    /** The search for a free process slot, which never takes slot 0. */
    method FindFree() returns (slot: int)
      requires |ptable| == lay.nproc && 1 <= lay.nproc
      ensures slot == -1 || 1 <= slot < lay.nproc
      ensures if slot == -1 then forall i: nat :: !LowestFree(ptable, i) else LowestFree(ptable, slot)
    {
      slot := -1;
      for i := 1 to lay.nproc
        invariant slot == -1 && forall j :: 1 <= j < i ==> !ptable[j].state.Free?
      {
        if ptable[i].state.Free? {
          return i;
        }
      }
    }

    /** `kalloc` and `memset` to zero; null exactly when memory is full. */
    method GrabZeroed() returns (pa: nat)
      requires m.Valid()
      modifies m
      ensures m.Valid() && (pa == 0 <==> old(m.Full()))
      ensures pa == 0 ==> m.mem == old(m.mem) && m.refs == old(m.refs)
      ensures pa != 0 ==> m.Allocatable(pa) && old(m.refs)[pa] == 0 && m.refs == old(m.refs)[pa := 1]
      ensures pa != 0 ==> m.mem == old(m.mem)[pa := Filled(ZERO)]
      ensures pa != 0 ==> Taken(m, old(m.mem), old(m.refs), pa, m.mem, m.refs)
    {
      ghost var mem0 := m.mem;
      pa := m.Kalloc(PAGESIZE);
      if pa != 0 {
        m.StorePage(pa, Filled(ZERO));
        assert m.mem == mem0[pa := Filled(ZERO)];
      }
    }

    /** The child's root page, zeroed; null when memory is full. */
    method BeginFork(pid: nat) returns (root: nat, ghost k: Fork)
      requires m.Valid() && Good(m, m.mem, m.refs, ptable, lay) && Live(ptable, pid)
      modifies m
      ensures m.Valid()
      ensures root == 0 ==> m.mem == old(m.mem) && m.refs == old(m.refs) && m.Full()
      ensures root != 0 ==> k == Fork(old(m.mem), old(m.refs), ptable, pid, root) && k.Started(m, lay)
      ensures root != 0 ==> Copying(m, k, lay, m.mem, m.refs, 0, multiset{}) && Ledger(m, k, lay, m.mem, m.refs, 0, 0)
    {
      ghost var mem0, refs0 := m.mem, m.refs;
      root := GrabZeroed();
      k := Fork(mem0, refs0, ptable, pid, root);
      if root != 0 {
        BeginCopy(m, k, lay, m.mem, m.refs);
        LedgerBegins(m, k, lay, m.mem, m.refs);
      }
    }

    /** The body of a fork into slot `slot`: a complete copy of the address space, or no trace of it, unless a counter
        wraps around. */
    method ForkSpace(pid: nat, slot: nat) returns (c: Copied, root: nat)
      requires m.Valid() && Good(m, m.mem, m.refs, ptable, lay) && Live(ptable, pid)
      requires 1 <= slot < |ptable| && ptable[slot].state.Free?
      modifies m
      ensures c.Wrapped? <==> old(ForkWraps(m, m.mem, m.refs, ptable[pid].pagetable, lay))
      ensures c.Wrapped? ==> !Good(m, m.mem, m.refs, ptable, lay)
      ensures !c.Wrapped? ==>
                m.Valid() && KeepsUsed(m, old(m.mem), old(m.refs), m.mem)
                && SameTranslations(old(m.mem), m.mem, ptable)
      ensures c.NoMemory? ==>
                && m.refs == old(m.refs) && Good(m, m.mem, m.refs, ptable, lay)
                && Keeps(m, old(m.mem), old(m.refs), ptable, m.mem, m.refs, ptable, lay)
      ensures !c.Wrapped? ==>
                (c.Complete? <==> |FreeSet(m, old(m.refs))| >= ForkNeeds(old(m.mem), ptable[pid].pagetable, lay))
      ensures c.Complete? ==>
                && Good(m, m.mem, m.refs, ptable[slot := Proc(slot, root, Runnable, ptable[pid].regs)], lay)
                && Keeps(m, old(m.mem), old(m.refs), ptable, m.mem, m.refs,
                         ptable[slot := Proc(slot, root, Runnable, ptable[pid].regs)], lay)
                && Raised(old(m.refs), m.refs, Uses(m.mem, root, lay))
                && |FreeSet(m, m.refs)| + ForkNeeds(old(m.mem), ptable[pid].pagetable, lay) == |FreeSet(m, old(m.refs))|
                && CopiedEverywhere(old(m.mem), old(m.refs), ptable[pid].pagetable, m.mem, root, lay)
    {
      hide Good, SameTranslations, KeepsUsed, Copying, CopiedEverywhere, Ledger, Short, FreeSet, ForkNeeds, Keeps,
           Raised, ForkWraps, Uses;
      ghost var k;
      root, k := BeginFork(pid);
      if root == 0 {
        SameMemory(m, m.mem, m.refs, ptable, lay);
        FullIsShort(pid);
        return NoMemory, root;
      }
      var hand;
      ghost var v;
      c, hand, v := CopyAll(k, ptable[pid].pagetable, root);
      if c.Complete? {
        FinishCopy(m, k, lay, m.mem, m.refs, slot, Proc(slot, root, Runnable, ptable[pid].regs));
        CopyReachesEverywhere(m, k, lay, m.mem, m.refs);
        CopyKeepsUsed(m, k, lay, m.mem, m.refs, lay.memVirtual, multiset{});
        CompleteMeans(m, k, lay, m.mem, m.refs);
        TranslationsFrame(m, k.mem0, k.refs0, m.mem, ptable, lay);
        CopyRaises(m, k, lay, m.mem, m.refs);
      } else if c.NoMemory? {
        ShortMeans(m, k, lay, v + 1);
        AbandonChild(k, root, hand, v);
      }
    }

    lemma FullIsShort(pid: nat)
      requires m.Valid() && m.Full() && pid < |ptable|
      ensures |FreeSet(m, m.refs)| < ForkNeeds(m.mem, ptable[pid].pagetable, lay)
      ensures !ForkWraps(m, m.mem, m.refs, ptable[pid].pagetable, lay)
    {
      NoneFree(m, m.refs);
    }

    /** The writes to the process table that end a fork. */
    method AdmitChild(slot: nat, root: nat)
      requires |ptable| == lay.nproc && current < |ptable| && slot < |ptable| && slot != current
      modifies this`ptable
      ensures |ptable| == |old(ptable)| && ForkedInto(old(ptable), ptable, current, slot)
                && ptable[slot].pagetable == root
      ensures SameSpaces(old(ptable)[slot := Proc(slot, root, Runnable, old(ptable)[current].regs)], ptable)
    {
      ptable := ptable[slot := ptable[slot].(pid := slot, pagetable := root)];
      ptable := ptable[slot := ptable[slot].(state := Runnable, regs := ptable[current].regs.(rax := 0))];
      ptable := ptable[current := ptable[current].(regs := ptable[current].regs.(rax := slot))];
    }

    /** The process table after a fork that failed in slot `slot`. */
    method LeaveSlot(slot: nat, root: nat)
      requires slot < |ptable| && ptable[slot].pid == slot && ptable[slot].state.Free?
      modifies this`ptable
      ensures |ptable| == |old(ptable)| && SlotUnused(old(ptable), ptable) && SameSpaces(old(ptable), ptable)
    {
      if root != 0 {
        ptable := ptable[slot := ptable[slot].(pagetable := root)];
      }
    }

    /** The part of `syscall_fork` after a free slot was found. */
    method ForkInto(slot: nat) returns (c: Copied)
      requires m.Valid() && Good(m, m.mem, m.refs, ptable, lay) && current < |ptable| && Live(ptable, current)
      requires 1 <= slot < |ptable| == lay.nproc && slot != current && ptable[slot].state.Free?
                 && ptable[slot].pid == slot
      modifies m, this`ptable
      ensures |ptable| == |old(ptable)|
      ensures c.Wrapped? <==> old(ForkWraps(m, m.mem, m.refs, ptable[current].pagetable, lay))
      ensures c.Wrapped? ==> ptable == old(ptable) && !Good(m, m.mem, m.refs, ptable, lay)
      ensures !c.Wrapped? ==>
                && m.Valid() && Good(m, m.mem, m.refs, ptable, lay)
                && Keeps(m, old(m.mem), old(m.refs), old(ptable), m.mem, m.refs, ptable, lay)
                && KeepsUsed(m, old(m.mem), old(m.refs), m.mem) && SameTranslations(old(m.mem), m.mem, old(ptable))
      ensures c.NoMemory? ==> m.refs == old(m.refs) && SlotUnused(old(ptable), ptable)
      ensures !c.Wrapped? ==>
                (c.Complete? <==>
                 |FreeSet(m, old(m.refs))| >= ForkNeeds(old(m.mem), old(ptable)[current].pagetable, lay))
      ensures c.Complete? ==>
                && ForkedInto(old(ptable), ptable, current, slot)
                && Raised(old(m.refs), m.refs, Uses(m.mem, ptable[slot].pagetable, lay))
                && |FreeSet(m, m.refs)| + ForkNeeds(old(m.mem), old(ptable)[current].pagetable, lay)
                    == |FreeSet(m, old(m.refs))|
                && CopiedEverywhere(old(m.mem), old(m.refs), old(ptable)[current].pagetable, m.mem,
                                    ptable[slot].pagetable, lay)
    {
      hide *;
      ghost var mem0, refs0, ptable0 := m.mem, m.refs, ptable;
      var root;
      c, root := ForkSpace(current, slot);
      if c.Complete? {
        AdmitChild(slot, root);
        ghost var admitted := ptable0[slot := Proc(slot, root, Runnable, ptable0[current].regs)];
        GoodSameSpaces(m, m.mem, m.refs, admitted, ptable, lay);
        KeepsTrans(m, mem0, refs0, ptable0, m.mem, m.refs, admitted, m.mem, m.refs, ptable, lay);
      } else if c.NoMemory? {
        LeaveSlot(slot, root);
        GoodSameSpaces(m, m.mem, m.refs, ptable0, ptable, lay);
        KeepsTrans(m, mem0, refs0, ptable0, m.mem, m.refs, ptable0, m.mem, m.refs, ptable, lay);
      }
    }

    /** `syscall_fork`. Either a new process in the lowest free slot is a copy of the caller's; or no count,
        translation or live process has changed. It fails exactly if there is no free slot, or fewer free pages than
        the copy needs. Only if it comes to share a page whose counter is at its end, it wraps that counter, and
        the invariant is lost. */
    method SyscallFork() returns (r: int, wrapped: bool)
      requires Inv() && Live(ptable, current)
      modifies m, this`ptable
      ensures wrapped <==>
                && (exists slot: nat :: old(LowestFree(ptable, slot)))
                && old(ForkWraps(m, m.mem, m.refs, ptable[current].pagetable, lay))
      ensures wrapped ==> ptable == old(ptable) && !Good(m, m.mem, m.refs, ptable, lay)
      ensures !wrapped ==>
                && Inv() && Keeps(m, old(m.mem), old(m.refs), old(ptable), m.mem, m.refs, ptable, lay)
                && KeepsUsed(m, old(m.mem), old(m.refs), m.mem) && SameTranslations(old(m.mem), m.mem, old(ptable))
      ensures !wrapped ==> r == -1 || (1 <= r < lay.nproc && old(LowestFree(ptable, r)))
      ensures !wrapped && r == -1 ==> m.refs == old(m.refs) && SlotUnused(old(ptable), ptable)
      ensures !wrapped ==>
                (r == -1 <==> || (forall slot: nat :: !old(LowestFree(ptable, slot)))
                              || |FreeSet(m, old(m.refs))| < ForkNeeds(old(m.mem), old(ptable)[current].pagetable, lay))
      ensures !wrapped && r != -1 ==>
                && ForkedInto(old(ptable), ptable, current, r)
                && Raised(old(m.refs), m.refs, Uses(m.mem, ptable[r].pagetable, lay))
                && |FreeSet(m, m.refs)| + ForkNeeds(old(m.mem), old(ptable)[current].pagetable, lay)
                    == |FreeSet(m, old(m.refs))|
                && CopiedEverywhere(old(m.mem), old(m.refs), old(ptable)[current].pagetable, m.mem, ptable[r].pagetable,
                                    lay)
    {
      hide Good, SameTranslations, KeepsUsed, FreeSet, ForkNeeds, CopiedEverywhere, ForkedInto, SlotUnused, SameSpaces,
           Keeps, Exact,
           ForkWraps, Raised, Uses, LowestFree, KernelTable;
      ghost var mem0, refs0, ptable0 := m.mem, m.refs, ptable;
      r := FindFree();
      wrapped := false;
      if r == -1 {
        SameMemory(m, m.mem, m.refs, ptable, lay);
        UnusedNow(ptable);
        return;
      }
      OnlyLowest(ptable, r);
      var c := ForkInto(r);
      if c.Wrapped? {
        wrapped := true;
        return;
      }
      KernelStays(m, mem0, refs0, m.mem, kernelPt, lay);
      KeepsExact(m, mem0, refs0, ptable0, m.mem, m.refs, ptable, lay);
      if c.Complete? {
        NamedForked(ptable0, ptable, current, r);
      } else {
        NamedUnused(ptable0, ptable);
        r := -1;
      }
    }

    /** The `try_map` of `syscall_page_alloc`, with the page `pa` taken just before. */
    method MapTaken(it: VmIter, v: nat, pa: nat, ghost mem0: Mem, ghost refs0: seq<nat>)
        returns (ghost added: seq<nat>, ghost mapped: bool)
      requires lay.Ok() && m.Valid() && v < lay.memVirtual && it.m == m && it.va == v * PAGESIZE
      requires Cursor(it.slot, it.level, it.perm) == FreshCursor(m.mem, it.pt, v * PAGESIZE)
      requires Tidy(m.mem, it.pt) && NoDup(Pages(m.mem, it.pt, 3)) && Taken(m, mem0, refs0, pa, m.mem, m.refs)
      requires forall f :: f in Pages(m.mem, it.pt, 3) ==> f < m.npages == |m.refs| && m.refs[f] != 0
      requires Pages(m.mem, it.pt, 3) == Pages(mem0, it.pt, 3)
      modifies m, it
      ensures m.Valid()
      ensures var view := old(View(m.mem, it.pt, lay.memVirtual));
              Ended(m, lay, mem0, refs0, it.pt, pa, old(m.mem), old(m.refs), m.mem, m.refs, added,
                    view[v := AfterCall(view, v, pa, mapped)])
      ensures if mapped then |added| == old(it.level) else m.Full() && |added| < old(it.level)
    {
      hide Tidy, NoDup, Deepened;
      ghost var view := View(m.mem, it.pt, lay.memVirtual);
      var r;
      r, added := MapAt(it, v, Phys(pa, NONE), PTE_PWU);
      mapped := r == 0;
      assert view[v := view[v]] == view;
    }

    /** The body of `syscall_page_alloc` for page `v`: a zeroed page is taken and `try_map` is called once. */
    method AllocAt(v: nat)
        returns (pa: nat, ghost added: seq<nat>, ghost mapped: bool, ghost mem1: Mem, ghost refs1: seq<nat>)
      requires lay.Ok() && m.Valid() && Good(m, m.mem, m.refs, ptable, lay) && current < |ptable|
                 && Live(ptable, current)
      requires |m.refs| == m.npages && lay.procStart <= v < lay.memVirtual && v * PAGESIZE < VA_END
      modifies m
      ensures m.Valid() && (pa == 0 <==> old(m.Full()))
      ensures pa == 0 ==> m.mem == old(m.mem) && m.refs == old(m.refs)
      ensures pa != 0 ==>
                && Called(m, lay, old(m.mem), old(m.refs), ptable, current, pa, mem1, refs1, m.mem, m.refs, added, v,
                          mapped)
                && var level := FreshCursor(old(m.mem), ptable[current].pagetable, v * PAGESIZE).level;
                   if mapped then |added| == level else m.Full() && |added| < level
    {
      hide *;
      ghost var mem0, refs0 := m.mem, m.refs;
      added, mapped, mem1, refs1 := [], false, mem0, refs0;
      Releasable(m, m.mem, m.refs, ptable, lay, current);
      TidyIsInitialized(m.mem, ptable[current].pagetable);
      var it := NewIter(ptable[current].pagetable, v * PAGESIZE);
      pa := GrabZeroed();
      if pa != 0 {
        mem1, refs1 := m.mem, m.refs;
        TakenKeepsTable(m, mem0, refs0, ptable, lay, current, pa, mem1, refs1, v * PAGESIZE);
        added, mapped := MapTaken(it, v, pa, mem0, refs0);
        CalledNow(m, lay, mem0, refs0, ptable, current, pa, mem1, refs1, m.mem, m.refs, added, v, mapped);
      }
    }

    /** `syscall_page_alloc`. It reports failure exactly for an address out of range or when no page is free.
        Otherwise it panics at an address that is not page-aligned; and at others, the new page is mapped exactly when
        enough pages are left for the missing tables, and the accounts are kept exactly when, besides, nothing was
        mapped there before. */
    method SyscallPageAlloc(addr: nat) returns (r: int, panicked: bool, ghost pa: nat)
      requires Inv() && current < |ptable| && Live(ptable, current)
      modifies m
      ensures m.Valid() && (r == 0 || r == -1)
      ensures panicked <==> InRange(lay, addr) && addr % PAGESIZE != 0 && !old(AllUsed(m, m.refs))
      ensures !panicked ==> (r == -1 <==> !InRange(lay, addr) || old(AllUsed(m, m.refs)))
      ensures !panicked && r == -1 ==> m.mem == old(m.mem) && m.refs == old(m.refs)
      ensures !panicked && r == 0 ==>
                PageAllocated(m, lay, old(m.mem), old(m.refs), ptable, current, addr, pa, m.mem, m.refs)
    {
      hide PageAllocated, Called, Good, KernelTable, Exact;
      pa := 0;
      if addr < lay.procStart * PAGESIZE || addr >= lay.memVirtual * PAGESIZE {
        return -1, false, 0;
      }
      if addr % PAGESIZE != 0 {
        var unmapped := GrabZeroed();
        return -1, unmapped != 0, 0;
      }
      var v := addr / PAGESIZE;
      PageOf(lay, addr);
      ghost var mem0, refs0 := m.mem, m.refs;
      var taken, added, mapped, mem1, refs1 := AllocAt(v);
      if taken == 0 {
        return -1, false, 0;
      }
      pa := taken;
      AllocOutcome(m, lay, mem0, refs0, ptable, current, pa, mem1, refs1, m.mem, m.refs, added, v, mapped);
      return 0, false, pa;
    }

    // -------------------------------------------------------------------------------------
    // process_setup

    /** The root page of a new process, zeroed; null when memory is full. */
    method SetupRoot() returns (root: nat, ghost k: Fork)
      requires m.Valid()
      modifies m
      ensures m.Valid() && (root == 0 <==> old(m.Full()))
      ensures root == 0 ==> m.mem == old(m.mem) && m.refs == old(m.refs) && m.Full()
      ensures root != 0 ==> k == Fork(old(m.mem), old(m.refs), ptable, 0, root)
      ensures root != 0 ==>
                |FreeSet(m, old(m.refs))| > 0
                && SetupState(m, k, lay, m.mem, m.refs, [], [], Begun(|FreeSet(m, old(m.refs))|))
    {
      ghost var mem0, refs0 := m.mem, m.refs;
      root := GrabZeroed();
      k := Fork(mem0, refs0, ptable, 0, root);
      if root != 0 {
        BeginState(m, k, lay, m.mem, m.refs);
      }
    }

    /** `try_map` while a process is set up. */
    method SetupMap(it: VmIter, ghost k: Fork, v: nat, pa: PhysArg, p: Flags)
        returns (ghost added: seq<nat>, ghost mapped: bool)
      requires lay.Ok() && m.Valid() && v < lay.memVirtual && it.m == m && it.pt == k.child && it.va == v * PAGESIZE
      requires Cursor(it.slot, it.level, it.perm) == FreshCursor(m.mem, it.pt, v * PAGESIZE)
      requires Raw(m, k, m.mem, m.refs) && PlainArgs(pa, p)
      modifies m, it
      ensures m.Valid() && it.AtFresh() && it.va == v * PAGESIZE
      ensures MapEffect(m, old(m.mem), old(m.refs), m.mem, m.refs, k.child, lay, added,
                        if mapped then old(View(m.mem, k.child, lay.memVirtual))[v := Mapping(pa, p)]
                            else old(View(m.mem, k.child, lay.memVirtual)))
      ensures !mapped ==> AllUsed(m, m.refs)
      ensures Deepened(old(m.mem), m.mem, k.child, v * PAGESIZE, |added|, p, mapped)
    {
      hide Deepened;
      var r;
      r, added := MapAt(it, v, pa, p);
      mapped := r == 0;
    }

    /** The kernel's iterator, which reads a table that is never written. */
    ghost predicate KernelAt(it: VmIter, mem0: Mem, va: nat)
      reads it
    {
      && it.m == m && it.pt == kernelPt && it.va == va
      && Cursor(it.slot, it.level, it.perm) == FreshCursor(mem0, kernelPt, va)
    }

    /** What the kernel's iterator reads at low page `v`. */
    lemma KernelReads(it: VmIter, mem0: Mem, refs0: seq<nat>, v: nat)
      requires lay.Ok() && m.Valid() && KernelTable(m, mem0, kernelPt, lay) && KeepsUsed(m, mem0, refs0, m.mem)
      requires v < lay.procStart && KernelAt(it, mem0, v * PAGESIZE)
      ensures var t := View(mem0, kernelPt, lay.procStart)[v];
              && LowPage(t, v, lay) && (t.Mapped? ==> v < 0x10_0000)
              && (Present(it.Entry()) <==> t.Mapped?)
              && (it.Has(PTE_PU) <==> User(t))
              && (it.Has(PTE_PW) <==> Writable(t))
    {
      KernelStays(m, mem0, refs0, m.mem, kernelPt, lay);
      CursorFrame(mem0, m.mem, kernelPt, v * PAGESIZE);
      AccessorsAt(m.mem, kernelPt, v);
      ViewAt(m.mem, kernelPt, lay.procStart, v);
      PageNumbers(v, v);
    }

    /** The kernel's iterator may walk, and finds what it would have found before. */
    lemma KernelCursor(mem0: Mem, refs0: seq<nat>, va: nat)
      requires m.Valid() && KernelTable(m, mem0, kernelPt, lay) && KeepsUsed(m, mem0, refs0, m.mem)
      ensures FreshCursor(m.mem, kernelPt, va) == FreshCursor(mem0, kernelPt, va)
      ensures Initialized(Read(m.mem, FreshCursor(m.mem, kernelPt, va).slot))
    {
      hide FreshCursor, KeepsUsed, TidyAt, LowPage, Read;
      KernelStays(m, mem0, refs0, m.mem, kernelPt, lay);
      CursorFrame(mem0, m.mem, kernelPt, va);
    }

    /** `it += PAGESIZE` on the kernel's iterator. */
    method KernelNext(it: VmIter, ghost mem0: Mem, ghost refs0: seq<nat>, ghost va: nat)
      requires m.Valid() && KernelTable(m, mem0, kernelPt, lay) && KeepsUsed(m, mem0, refs0, m.mem)
      requires va + PAGESIZE < VA_END && KernelAt(it, mem0, va)
      modifies it
      ensures KernelAt(it, mem0, va + PAGESIZE)
    {
      hide FreshCursor, KernelTable, KeepsUsed;
      KernelCursor(mem0, refs0, va);
      KernelCursor(mem0, refs0, va + PAGESIZE);
      it.RealFind(it.va + PAGESIZE);
    }

    /** A present low page gets the same entry in the new process. */
    method MapLow(it: VmIter, ghost k: Fork, ghost low: seq<Translation>, ghost plan: Plan, v: nat, p: Flags)
      requires lay.Ok() && m.Valid() && it.m == m && it.pt == k.child && it.va == v * PAGESIZE
      requires Cursor(it.slot, it.level, it.perm) == FreshCursor(m.mem, it.pt, v * PAGESIZE)
      requires SetupState(m, k, lay, m.mem, m.refs, low, [], plan) && |low| == v < lay.procStart && v < 0x10_0000
      requires p.p && OnlyPWU(p) && LowPage(Mapped(v * PAGESIZE, p), v, lay)
      modifies m, it
      ensures m.Valid() && it.AtFresh() && it.va == v * PAGESIZE
      ensures SetupState(m, k, lay, m.mem, m.refs, low + [Mapped(v * PAGESIZE, p)], [], AfterLow(plan, v))
    {
      hide Deepened, Sound, Spoiled, AfterLow, FreeSet;
      ghost var mem1, refs1 := m.mem, m.refs;
      var added, mapped := SetupMap(it, k, v, Phys(v, NONE), p);
      LowDone(m, k, lay, mem1, refs1, low, plan, Mapped(v * PAGESIZE, p), m.mem, m.refs, added, p, mapped);
    }

    /** One turn of the loop over low memory, before both iterators move on. */
    method LowPageAt(kit: VmIter, it: VmIter, ghost k: Fork, ghost low: seq<Translation>, ghost plan: Plan, v: nat)
      requires lay.Ok() && m.Valid() && KernelTable(m, k.mem0, kernelPt, lay) && KernelAt(kit, k.mem0, v * PAGESIZE)
                 && kit != it
      requires it.m == m && it.pt == k.child && it.va == v * PAGESIZE && it.AtFresh()
      requires SetupState(m, k, lay, m.mem, m.refs, low, [], plan) && |low| == v < lay.procStart
      modifies m, it
      ensures m.Valid() && it.AtFresh() && it.va == v * PAGESIZE
      ensures var t := View(k.mem0, kernelPt, lay.procStart)[v];
              SetupState(m, k, lay, m.mem, m.refs, low + [t], [], if t.Mapped? then AfterLow(plan, v) else plan)
    {
      hide Sound, Spoiled, AfterLow, FreeSet;
      KernelReads(kit, k.mem0, k.refs0, v);
      var p, w, u := Present(kit.Entry()), kit.Has(PTE_PW), kit.Has(PTE_PU);
      var perm := NONE;
      if p && !w && !u {
        perm := PTE_P;
      }
      if p && w && !u {
        perm := PTE_PW;
      }
      if p && w && u {
        perm := PTE_PWU;
      }
      if perm == NONE {
        LowSkip(m, k, lay, m.mem, m.refs, low, plan);
      } else {
        MapLow(it, k, low, plan, v, perm);
      }
    }

    /** `process_It += PAGESIZE`, on a table that is being built. */
    method BuiltNext(it: VmIter, ghost k: Fork)
      requires m.Valid() && it.m == m && it.pt == k.child && it.AtFresh() && Raw(m, k, m.mem, m.refs)
                 && it.va + PAGESIZE < VA_END
      modifies it
      ensures it.AtFresh() && it.va == old(it.va) + PAGESIZE
    {
      TidyIsInitialized(m.mem, k.child);
      it.RealFind(it.va + PAGESIZE);
    }

    method LowStep(kit: VmIter, it: VmIter, ghost k: Fork, ghost low: seq<Translation>, ghost plan: Plan, v: nat)
      requires lay.Ok() && m.Valid() && KernelTable(m, k.mem0, kernelPt, lay) && KernelAt(kit, k.mem0, v * PAGESIZE)
                 && kit != it
      requires it.m == m && it.pt == k.child && it.va == v * PAGESIZE && it.AtFresh()
                 && v * PAGESIZE + PAGESIZE < VA_END
      requires SetupState(m, k, lay, m.mem, m.refs, low, [], plan) && |low| == v < lay.procStart
      modifies m, it, kit
      ensures m.Valid() && it.AtFresh() && it.va == kit.va == v * PAGESIZE + PAGESIZE
                && KernelAt(kit, k.mem0, v * PAGESIZE + PAGESIZE)
      ensures var t := View(k.mem0, kernelPt, lay.procStart)[v];
              SetupState(m, k, lay, m.mem, m.refs, low + [t], [], if t.Mapped? then AfterLow(plan, v) else plan)
    {
      hide Sound, Spoiled, AfterLow, FreeSet;
      LowPageAt(kit, it, k, low, plan, v);
      KernelNext(kit, k.mem0, k.refs0, v * PAGESIZE);
      BuiltNext(it, k);
    }

    /** The loop that copies the kernel's mappings of low memory. */
    method SetupLow(root: nat, ghost k: Fork, ghost free: nat)
      requires lay.Ok() && m.Valid() && KernelTable(m, k.mem0, kernelPt, lay) && root == k.child && free > 0
      requires SetupState(m, k, lay, m.mem, m.refs, [], [], Begun(free))
      modifies m
      ensures m.Valid()
      ensures var low := View(k.mem0, kernelPt, lay.procStart);
              SetupState(m, k, lay, m.mem, m.refs, low, [], LowPlan(free, low, |low|))
    {
      ghost var all := View(k.mem0, kernelPt, lay.procStart);
      hide *;
      var kit, it := SetupIters(root, k, free);
      var v := 0;
      assert all[..0] == [];
      LowPlanStarts(free, all);
      while kit.va < lay.procStart * PAGESIZE
        invariant v <= lay.procStart && m.Valid() && kit != it && kit.va == v * PAGESIZE
                    && KernelAt(kit, k.mem0, v * PAGESIZE)
        invariant it.m == m && it.pt == root && it.va == v * PAGESIZE && it.AtFresh()
        invariant SetupState(m, k, lay, m.mem, m.refs, all[..v], [], LowPlan(free, all, v))
        decreases lay.procStart - v
      {
        LowNext(lay, all, v);
        LowPlanStep(free, all, v);
        LowStep(kit, it, k, all[..v], LowPlan(free, all, v), v);
        v := v + 1;
      }
      LoopEnd(v, lay.procStart);
      assert all[..v] == all;
    }

    method SetupIters(root: nat, ghost k: Fork, ghost free: nat) returns (kit: VmIter, it: VmIter)
      requires lay.Ok() && m.Valid() && KernelTable(m, k.mem0, kernelPt, lay) && root == k.child && free > 0
      requires SetupState(m, k, lay, m.mem, m.refs, [], [], Begun(free))
      ensures fresh(kit) && fresh(it) && kit != it && KernelAt(kit, k.mem0, 0) && kit.va == 0
      ensures it.m == m && it.pt == root && it.va == 0 && it.AtFresh()
    {
      KernelStays(m, k.mem0, k.refs0, m.mem, kernelPt, lay);
      CursorFrame(k.mem0, m.mem, kernelPt, 0);
      TidyIsInitialized(m.mem, root);
      kit := NewIter(kernelPt, 0);
      it := NewIter(root, 0);
    }

    /** A requested page is allocated and mapped; neither result is checked. */
    method UserStep(root: nat, r: Request, ghost k: Fork, ghost low: seq<Translation>, ghost requests: seq<Request>,
                    ghost plan: Plan)
      requires lay.Ok() && m.Valid() && root == k.child && SetupState(m, k, lay, m.mem, m.refs, low, requests, plan)
      requires |low| == lay.procStart <= r.page < lay.memVirtual && r.page * PAGESIZE < VA_END
      modifies m
      ensures m.Valid()
      ensures SetupState(m, k, lay, m.mem, m.refs, low, requests + [r],
                         AfterRequest(plan, r.page, Requested(requests, r.page)))
    {
      hide Sound, Spoiled, AfterRequest, FreeSet, Requested;
      ghost var mem1, refs1 := m.mem, m.refs;
      TidyIsInitialized(m.mem, root);
      var it := NewIter(root, r.page * PAGESIZE);
      var pa := m.Kalloc(PAGESIZE);
      UserTaken(m, k, lay, mem1, refs1, low, requests, plan, m.mem, m.refs, pa);
      CursorFrame(mem1, m.mem, root, r.page * PAGESIZE);
      MapUser(it, r, pa, k, low, requests, plan);
    }

    method MapUser(it: VmIter, r: Request, pa: nat, ghost k: Fork, ghost low: seq<Translation>,
                   ghost requests: seq<Request>, ghost plan: Plan)
      requires lay.Ok() && m.Valid() && it.m == m && it.pt == k.child && it.va == r.page * PAGESIZE && pa < 0x10_0000
      requires Cursor(it.slot, it.level, it.perm) == FreshCursor(m.mem, it.pt, r.page * PAGESIZE)
      requires HandState(m, k, lay, m.mem, m.refs, low, requests, plan, pa)
                 && |low| == lay.procStart <= r.page < lay.memVirtual
      modifies m, it
      ensures m.Valid()
      ensures SetupState(m, k, lay, m.mem, m.refs, low, requests + [r],
                         AfterRequest(plan, r.page, Requested(requests, r.page)))
    {
      hide Sound, Spoiled, AfterRequest, FreeSet, Requested, Deepened;
      ghost var mem1, refs1 := m.mem, m.refs;
      var added, mapped := SetupMap(it, k, r.page, Phys(pa, NONE), UserPerm(r.writable));
      UserDone(m, k, lay, mem1, refs1, low, requests, plan, pa, r, m.mem, m.refs, added, mapped);
    }

    /** The loop over the pages of a program, and its stack page. */
    method SetupUser(root: nat, requests: seq<Request>, ghost k: Fork, ghost low: seq<Translation>, ghost free: nat)
      requires lay.Ok() && m.Valid() && root == k.child && free > 0 && |low| == lay.procStart
      requires SetupState(m, k, lay, m.mem, m.refs, low, [], LowPlan(free, low, |low|))
      requires forall i :: 0 <= i < |requests| ==> lay.procStart <= requests[i].page < lay.memVirtual
      modifies m
      ensures m.Valid() && SetupState(m, k, lay, m.mem, m.refs, low, requests, FullPlan(free, low, requests))
    {
      hide SetupState, PlanOf, LowPlan, AfterRequest, Requested;
      PlanStarts(free, low, requests);
      assert requests[..0] == [];
      for i := 0 to |requests|
        invariant m.Valid() && SetupState(m, k, lay, m.mem, m.refs, low, requests[..i], PlanOf(free, low, requests, i))
      {
        PlanStep(free, low, requests, i);
        UserStep(root, requests[i], k, low, requests[..i], PlanOf(free, low, requests, i));
        assert requests[..i] + [requests[i]] == requests[..i + 1];
      }
      assert requests[..|requests|] == requests;
    }

    /** The allocation and mapping part of a setup. */
    method SetupSpace(requests: seq<Request>) returns (root: nat)
      requires lay.Ok() && m.Valid() && Good(m, m.mem, m.refs, ptable, lay) && KernelTable(m, m.mem, kernelPt, lay)
      requires forall i :: 0 <= i < |requests| ==> lay.procStart <= requests[i].page < lay.memVirtual
      modifies m
      ensures m.Valid() && (root == 0 <==> old(m.Full()))
      ensures root == 0 ==> m.mem == old(m.mem) && m.refs == old(m.refs)
      ensures root != 0 ==> |FreeSet(m, old(m.refs))| > 0
      ensures root != 0 ==> SetupState(m, Fork(old(m.mem), old(m.refs), ptable, 0, root), lay, m.mem, m.refs,
                                       old(View(m.mem, kernelPt, lay.procStart)), requests,
                                       FullPlan(|FreeSet(m, old(m.refs))|, old(View(m.mem, kernelPt, lay.procStart)),
                                                requests))
    {
      hide *;
      ghost var k, free := Fork(m.mem, m.refs, ptable, 0, 0), |FreeSet(m, m.refs)|;
      root, k := SetupRoot();
      if root != 0 {
        SetupLow(root, k, free);
        SetupUser(root, requests, k, View(k.mem0, kernelPt, lay.procStart), free);
      }
    }

    /** `process_setup` for a program that needs the pages `requests`, without the loading of their contents;
        `initial` are the registers that `init_process` sets, `regs` those with the entry point and the stack pointer.
        The process becomes runnable unless memory was full at the start. Then the invariant holds exactly if the plan
        foretells it; and it holds with everything mapped as asked for, exactly if no page is requested twice and
        there were enough free pages. */
    method ProcessSetup(pid: nat, requests: seq<Request>, initial: Regs, regs: Regs)
      requires lay.Ok() && m.Valid() && InOrder(m, m.mem, m.refs, ptable, lay) && Named(ptable)
      requires KernelTable(m, m.mem, kernelPt, lay) && 0 < pid < |ptable| && ptable[pid].state.Free?
      requires lay.procStart < lay.memVirtual
      requires forall i :: 0 <= i < |requests| ==> lay.procStart <= requests[i].page < lay.memVirtual
      modifies m, this`ptable
      ensures m.Valid() && KeepsUsed(m, old(m.mem), old(m.refs), m.mem)
                && SameTranslations(old(m.mem), m.mem, old(ptable))
      ensures |ptable| == |old(ptable)| && Named(ptable) && KernelTable(m, m.mem, kernelPt, lay)
      ensures if |FreeSet(m, old(m.refs))| == 0 then
                && ptable == old(ptable)[pid := old(ptable)[pid].(regs := initial)] && m.mem == old(m.mem)
                    && m.refs == old(m.refs)
                && InOrder(m, m.mem, m.refs, ptable, lay)
              else
                var free, low, all := |FreeSet(m, old(m.refs))|, old(View(m.mem, kernelPt, lay.procStart)),
                    Demanded(requests, lay);
                && ptable == old(ptable)[pid := Proc(pid, ptable[pid].pagetable, Runnable, regs)]
                && (InOrder(m, m.mem, m.refs, ptable, lay) <==> FullPlan(free, low, all).clean)
                && (InOrder(m, m.mem, m.refs, ptable, lay)
                    && Planned(View(m.mem, ptable[pid].pagetable, lay.memVirtual), low, all, lay)
                    <==> Distinct(all) && free >= Needs(low, all))
    {
      hide *;
      InOrderParts(m, m.mem, m.refs, ptable, lay);
      ghost var mem0, refs0, ptable0, free := m.mem, m.refs, ptable, |FreeSet(m, m.refs)|;
      ghost var low := View(mem0, kernelPt, lay.procStart);
      var all := Demanded(requests, lay);
      DemandedPages(requests, lay);
      FullIsNone();
      var root := SetupSpace(all);
      if root == 0 {
        SameMemory(m, mem0, refs0, ptable, lay);
        UnusedSetup(pid, initial);
        ptable := ptable[pid := ptable[pid].(regs := initial)];
      } else {
        NamedSet(ptable, pid, Proc(pid, root, Runnable, regs));
        ptable := ptable[pid := Proc(pid, root, Runnable, regs)];
        WholeIff(free, low, all);
        SetupOutcome(m, mem0, refs0, ptable0, root, lay, m.mem, m.refs, low, all, FullPlan(free, low, all), pid,
                     ptable[pid], kernelPt);
      }
    }

    lemma FullIsNone()
      requires m.Valid()
      ensures m.Full() <==> |FreeSet(m, m.refs)| == 0
    {
      AllUsedIff(m, m.refs);
    }

    /** A setup that found memory full changes only the registers of a free slot. */
    lemma UnusedSetup(pid: nat, initial: Regs)
      requires InOrder(m, m.mem, m.refs, ptable, lay) && Named(ptable) && pid < |ptable| && ptable[pid].state.Free?
      ensures InOrder(m, m.mem, m.refs, ptable[pid := ptable[pid].(regs := initial)], lay)
      ensures Named(ptable[pid := ptable[pid].(regs := initial)])
    {
      hide Good, Exact, Keeps;
      GoodSameSpaces(m, m.mem, m.refs, ptable, ptable[pid := ptable[pid].(regs := initial)], lay);
      KeepsExact(m, m.mem, m.refs, ptable, m.mem, m.refs, ptable[pid := ptable[pid].(regs := initial)], lay);
    }

    // -------------------------------------------------------------------------------------
    // schedule

    /** `schedule` and `run`: the search ends after at most NPROC steps, at the nearest runnable process. If there is
        none it does not end. */
    method Schedule() returns (ghost spins: nat)
      requires 1 <= |ptable| == lay.nproc && current < |ptable| && exists i: nat :: IsRunnable(ptable, i)
      modifies this`current
      ensures Picks(ptable, old(current), current)
      ensures spins == Distance(old(current), current, lay.nproc) <= lay.nproc
    {
      ghost var w: nat :| IsRunnable(ptable, w);
      var pid: nat := current;
      spins := 0;
      while true
        invariant pid < |ptable| && current == old(current)
        invariant forall q: nat :: IsRunnable(ptable, q) ==>
                    Distance(current, q, |ptable|) == spins + Distance(pid, q, |ptable|)
        decreases Distance(pid, w, |ptable|)
      {
        spins := spins + 1;
        forall q: nat | q < |ptable|
          ensures Distance(pid, q, |ptable|) == if q == NextSlot(pid, |ptable|) then 1
                    else Distance(NextSlot(pid, |ptable|), q, |ptable|) + 1
        {
          DistanceCounts(pid, q, |ptable|);
        }
        pid := NextSlot(pid, |ptable|);
        if ptable[pid].state.Runnable? {
          assert IsRunnable(ptable, pid);
          current := pid;
          return;
        }
      }
    }

    // -------------------------------------------------------------------------------------
    // Runs

    /** A trap: the registers are saved. */
    method Trap(regs: Regs)
      requires Inv()
      modifies this`ptable
      ensures Inv() && Snap() == Trapped(old(Snap()), regs)
    {
      hide Good, KernelTable, Exact;
      TrapKeeps(m, lay, Snap(), regs);
      NamedSet(ptable, current, ptable[current].(regs := regs));
      ptable := ptable[current := ptable[current].(regs := regs)];
    }

    /** `schedule`, where there may be nothing to run. */
    method Reschedule()
      requires Inv()
      modifies this`current
      ensures Inv() && Rescheduled(old(Snap()), Snap())
    {
      hide Good, KernelTable, Picks, Exact;
      NotZero(m, m.mem, m.refs, ptable, lay);
      if exists i :: 0 <= i < |ptable| && ptable[i].state.Runnable? {
        SomeRunnable(ptable);
        var spins := Schedule();
        PickRuns(ptable, old(current), current);
      } else {
        NoneRunnable(ptable);
      }
    }

    /** A page fault in user mode: the process is marked broken, and the next one is run. */
    method Fault(regs: Regs)
      requires Inv() && IsRunnable(ptable, current)
      modifies this`ptable, this`current
      ensures Inv() && Faulted(old(Snap()), regs, Snap())
    {
      hide Good, KernelTable, Rescheduled, Exact;
      Trap(regs);
      BrokenIsGood(m, lay, Snap());
      NamedSet(ptable, current, ptable[current].(state := Broken));
      ptable := ptable[current := ptable[current].(state := Broken)];
      Reschedule();
    }

    /** A load in user mode; `w` is the word loaded, unless the load faults. */
    method UserLoad(va: nat, regs: Regs) returns (w: Word)
      requires Inv() && IsRunnable(ptable, current) && va < VA_END
      modifies this`ptable, this`current
      ensures Inv()
      ensures if CanLoad(m.mem, old(ptable)[old(current)].pagetable, va) then
                Snap() == old(Snap()) && w == Loaded(m.mem, ptable[current].pagetable, va)
              else Faulted(old(Snap()), regs, Snap())
    {
      hide Steady, Faulted, CanLoad, Loaded;
      w := ZERO;
      if CanLoad(m.mem, ptable[current].pagetable, va) {
        w := Loaded(m.mem, ptable[current].pagetable, va);
      } else {
        Fault(regs);
      }
    }

    /** A store in user mode. It changes one word of memory and keeps the invariant, whatever is stored where the
        process may store; or it faults. */
    method UserStore(va: nat, w: Word, regs: Regs)
      requires Inv() && IsRunnable(ptable, current) && va < VA_END
      modifies m`mem, this`ptable, this`current
      ensures Inv()
      ensures if old(CanStore(m.mem, ptable[current].pagetable, va)) then
                Snap() == old(Snap()).(mem := Stored(old(m.mem), ptable[current].pagetable, va, w))
              else Faulted(old(Snap()), regs, Snap())
    {
      hide Good, KernelTable, Faulted, CanStore, Exact, Keeps;
      var t := Translate(m.mem, ptable[current].pagetable, va);
      if CanStore(m.mem, ptable[current].pagetable, va) {
        CanStoreMeans(va);
        StoreKeepsGood(m, m.mem, m.refs, ptable, lay, current, va, w);
        StoreKeepsKernel(m, m.mem, m.refs, ptable, lay, current, va, w, kernelPt);
        KeepsExact(m, m.mem, m.refs, ptable, Stored(m.mem, ptable[current].pagetable, va, w), m.refs, ptable, lay);
        m.Store(FrameIn(t), WordIn(t.pa), w);
      } else {
        Fault(regs);
      }
    }

    lemma CanStoreMeans(va: nat)
      requires Inv() && Live(ptable, current) && va < VA_END && CanStore(m.mem, ptable[current].pagetable, va)
      ensures var t := Translate(m.mem, ptable[current].pagetable, va); t.Mapped? && FrameIn(t) < m.npages
    {
      ReachedPage(m, m.mem, m.refs, ptable, lay, current, va);
    }

    method ServeFork(regs: Regs) returns (wrapped: bool)
      requires Inv() && IsRunnable(ptable, current)
      modifies m, this`ptable
      ensures wrapped <==> old(Wraps(m, lay, Snap(), SysFork(regs)))
      ensures if wrapped then !Good(m, m.mem, m.refs, ptable, lay)
              else Inv() && Forked(m, lay, Trapped(old(Snap()), regs), Snap())
    {
      hide Good, KernelTable, SameTranslations, KeepsUsed, FreeSet, ForkNeeds, CopiedEverywhere, ForkedInto, SlotUnused,
           Exact, Keeps,
           Raised, Uses, LowestFree, ForkWraps;
      ghost var s0 := Snap();
      SameSlots(s0, regs);
      Trap(regs);
      ghost var s := Snap();
      var r;
      r, wrapped := SyscallFork();
      if !wrapped && r != -1 {
        assert ForkedTo(m, lay, s, Snap(), r);
      }
    }

    lemma SameSlots(s: Snapshot, regs: Regs)
      requires s.current < |s.ptable|
      ensures forall slot: nat :: LowestFree(Trapped(s, regs).ptable, slot) <==> LowestFree(s.ptable, slot)
    {
      var t := Trapped(s, regs).ptable;
      assert |t| == |s.ptable| && forall i :: 0 <= i < |t| ==> t[i].state == s.ptable[i].state;
      forall slot: nat
        ensures LowestFree(t, slot) <==> LowestFree(s.ptable, slot)
      {
      }
    }

    method ServeExit(regs: Regs)
      requires Inv() && IsRunnable(ptable, current)
      modifies m, this`ptable, this`current
      ensures Inv() && Exited(lay, Trapped(old(Snap()), regs), Snap())
    {
      hide Good, KernelTable, Dropped, Uses, Rescheduled, Exact, Keeps;
      Trap(regs);
      SyscallExitAssist(current);
      Reschedule();
    }

    method ServePageAlloc(addr: nat, regs: Regs) returns (panicked: bool)
      requires Inv() && IsRunnable(ptable, current)
      modifies m, this`ptable
      ensures m.Valid() && panicked == old(Panics(m, lay, Snap(), SysPageAlloc(addr, regs)))
      ensures !panicked ==> Inv() && PageTaken(m, lay, Trapped(old(Snap()), regs), addr, Snap())
    {
      hide Good, KernelTable, AllUsed, FreeSet, PageAllocated, Exact;
      Trap(regs);
      NotZero(m, m.mem, m.refs, ptable, lay);
      ghost var s := Snap();
      var r;
      ghost var pa;
      r, panicked, pa := SyscallPageAlloc(addr);
      if !panicked && r == 0 {
        AllocatedIsGood(m, lay, s.mem, s.refs, ptable, current, addr, pa, m.mem, m.refs);
        KernelOwnStays(m, lay, s.mem, s.refs, ptable, current, addr, pa, m.mem, m.refs, kernelPt);
      }
    }

    method ServeSetup(pid: nat, requests: seq<Request>, initial: Regs, entry: Regs)
      requires Inv() && Enabled(lay, Snap(), Setup(pid, requests, initial, entry))
      modifies m, this`ptable
      ensures m.Valid() && SetUp(m, lay, kernelPt, old(Snap()), pid, requests, initial, entry, Snap())
      ensures if old(Breaks(m, lay, kernelPt, Snap(), Setup(pid, requests, initial, entry)))
                then !InOrder(m, m.mem, m.refs, ptable, lay)
              else Inv() && InOrder(m, m.mem, m.refs, ptable, lay)
    {
      hide Good, KernelTable, FreeSet, KeepsUsed, SameTranslations, FullPlan, Planned, Distinct, Needs, Exact;
      ProcessSetup(pid, requests, initial, entry);
    }

    /** One step. It is known beforehand whether the kernel will panic, whether a setup will break the accounts, and
        whether a fork will wrap a counter; otherwise the invariant holds afterwards. */
    method Perform(step: Step) returns (outcome: Outcome)
      requires Inv()
      modifies m, this`ptable, this`current
      ensures outcome.Panicked? <==> old(Panics(m, lay, Snap(), step))
      ensures outcome.Spoilt? <==> old(Breaks(m, lay, kernelPt, Snap(), step))
      ensures outcome.Overflowed? <==> old(Wraps(m, lay, Snap(), step))
      ensures outcome.Normal? || outcome.Spoilt? ==> Next(m, lay, kernelPt, old(Snap()), step, Snap())
      ensures match outcome
              case Normal => Inv()
              case Panicked => true
              case Spoilt => !InOrder(m, m.mem, m.refs, ptable, lay)
              case Overflowed => !Good(m, m.mem, m.refs, ptable, lay)
    {
      hide Good, KernelTable, AllUsed, FreeSet, FullPlan, PageTaken, SetUp, Forked, Exited, Faulted, Rescheduled,
           Stored, CanLoad, CanStore,
           View, Exact, ForkWraps, LowestFree;
      if !Enabled(lay, Snap(), step) {
        return Normal;
      }
      outcome := if Breaks(m, lay, kernelPt, Snap(), step) then Spoilt else Normal;
      match step
      case Setup(pid, requests, initial, entry) =>
        ServeSetup(pid, requests, initial, entry);
      case Start =>
        if 1 < |ptable| && ptable[1].state.Runnable? {
          current := 1;
        } else {
          outcome := Panicked;
        }
      case Load(va, regs) =>
        if Canonical(va) {
          var w := UserLoad(va, regs);
        } else {
          outcome := Panicked;
        }
      case Store(va, word, regs) =>
        if Canonical(va) {
          UserStore(va, word, regs);
        } else {
          outcome := Panicked;
        }
      case Timer(regs) =>
        Trap(regs);
        Reschedule();
      case SysGetPid(regs) =>
        Trap(regs);
      case SysYield(regs) =>
        Trap(regs.(rax := 0));
        Reschedule();
      case SysFork(regs) =>
        var wrapped := ServeFork(regs);
        if wrapped {
          outcome := Overflowed;
        }
      case SysExit(regs) =>
        ServeExit(regs);
      case SysPageAlloc(addr, regs) =>
        var panicked := ServePageAlloc(addr, regs);
        if panicked {
          outcome := Panicked;
        }
      case Unexpected =>
        outcome := Panicked;
    }

    /** A run: the steps performed one after the other, until one panics, is a setup that breaks the accounts, or
        wraps a counter; all of them if none does. The invariant holds in every state before. */
    method Run(steps: seq<Step>) returns (outcome: Outcome, served: nat, ghost trace: seq<Snapshot>)
      requires Inv()
      modifies m, this`ptable, this`current
      ensures served <= |steps| && IsRun(m, lay, kernelPt, steps[..served], trace) && trace[0] == old(Snap())
      ensures forall i :: 0 <= i < served ==> !Panics(m, lay, trace[i], steps[i]) && !Wraps(m, lay, trace[i], steps[i])
      ensures forall i :: 0 <= i < served - 1 ==> !Breaks(m, lay, kernelPt, trace[i], steps[i])
      ensures match outcome
              case Normal => Inv() && served == |steps| && trace[served] == Snap()
                             && (served > 0 ==> !Breaks(m, lay, kernelPt, trace[served - 1], steps[served - 1]))
              case Panicked => served < |steps| && Panics(m, lay, trace[served], steps[served])
                               && Steady(m, lay, kernelPt, trace[served])
              case Spoilt => 0 < served && trace[served] == Snap()
                             && Breaks(m, lay, kernelPt, trace[served - 1], steps[served - 1])
              case Overflowed => served < |steps| && Wraps(m, lay, trace[served], steps[served])
                                 && Steady(m, lay, kernelPt, trace[served])
    {
      hide Next, Good, KernelTable, Panics, Breaks, Wraps, Exact;
      outcome, served, trace := Normal, 0, [Snap()];
      while served < |steps|
        invariant served <= |steps| && outcome == Normal && Inv() && |trace| == served + 1
        invariant trace[0] == old(Snap()) && trace[served] == Snap() && IsRun(m, lay, kernelPt, steps[..served], trace)
        invariant forall i :: 0 <= i < served ==>
                    && !Panics(m, lay, trace[i], steps[i]) && !Wraps(m, lay, trace[i], steps[i])
                    && !Breaks(m, lay, kernelPt, trace[i], steps[i])
      {
        outcome := Perform(steps[served]);
        if outcome == Panicked || outcome == Overflowed {
          return;
        }
        RunExtends(m, lay, kernelPt, steps[..served], trace, steps[served], Snap());
        assert steps[..served + 1] == steps[..served] + [steps[served]];
        trace := trace + [Snap()];
        served := served + 1;
        if outcome == Spoilt {
          return;
        }
      }
      assert steps[..served] == steps;
    }
  }

  /** From boot on, with no page counted: `init_kernel_memory` and `kernel` build the kernel's table in its five pages
      from `kernelPt` on, large pages included, all slots are free, and every run of the kernel is one of the runs
      described. */
  method Boot(m: Machine, lay: Layout, kernelPt: nat, steps: seq<Step>)
      returns (k: Kernel, outcome: Outcome, served: nat, ghost trace: seq<Snapshot>)
    requires lay.Ok() && lay.procStart < lay.memVirtual && lay.procStart <= 0x100 && lay.console < m.npages <= LEAVES
    requires m.Valid() && OwnPages(m, kernelPt, lay) && forall f :: 0 <= f < m.npages ==> m.refs[f] == 0
    modifies m
    ensures fresh(k) && served <= |steps| && IsRun(m, lay, kernelPt, steps[..served], trace)
    ensures Steady(m, lay, kernelPt, trace[0]) && trace[0].current == 0
    ensures forall i, f :: 0 <= i <= served && 0 <= f < m.npages && KernelOnly(m, lay, f) ==>
              f < |trace[i].mem| && f < |trace[0].mem| && trace[i].mem[f] == trace[0].mem[f]
    ensures forall i :: 0 <= i < |trace[0].ptable| ==> trace[0].ptable[i].state.Free?
    ensures forall i :: 0 <= i < served - 1 ==> !Breaks(m, lay, kernelPt, trace[i], steps[i])
    ensures match outcome
            case Normal => served == |steps| && Steady(m, lay, kernelPt, trace[served])
            case Panicked => served < |steps| && Panics(m, lay, trace[served], steps[served])
            case Spoilt => 0 < served && Breaks(m, lay, kernelPt, trace[served - 1], steps[served - 1])
            case Overflowed => served < |steps| && Wraps(m, lay, trace[served], steps[served])
  {
    hide Next, Good, KernelTable, Panics, Breaks, Wraps, Exact, Shape, Prepared, AllOpen;
    assert OwnPages(m, kernelPt, lay);
    var open := InitKernelMemory(m, kernelPt);
    var leaves := NarrowKernelTable(m, kernelPt, lay.console, open);
    ShapeIsKernelTable(m, m.mem, kernelPt, leaves, m.npages, lay);
    k := new Kernel(m, lay, kernelPt);
    outcome, served, trace := k.Run(steps);
    forall i, f | 0 <= i <= served && 0 <= f < m.npages && KernelOnly(m, lay, f)
      ensures f < |trace[i].mem| && f < |trace[0].mem| && trace[i].mem[f] == trace[0].mem[f]
    {
      GoodMemory(m, trace[0].mem, trace[0].refs, trace[0].ptable, lay);
      RunProtects(m, lay, kernelPt, steps[..served], trace, i, f);
    }
  }

  lemma RunExtends(m: Machine, lay: Layout, kernelPt: nat, steps: seq<Step>, trace: seq<Snapshot>, step: Step,
                   s: Snapshot)
    requires IsRun(m, lay, kernelPt, steps, trace)
    requires Steady(m, lay, kernelPt, trace[|steps|]) && Next(m, lay, kernelPt, trace[|steps|], step, s)
    ensures IsRun(m, lay, kernelPt, steps + [step], trace + [s])
  {
    hide Next, Steady;
  }

  lemma BrokenIsGood(m: Machine, lay: Layout, s: Snapshot)
    requires s.current < |s.ptable| && !s.ptable[s.current].state.Free? && Good(m, s.mem, s.refs, s.ptable, lay)
    ensures Good(m, s.mem, s.refs, WithState(s, Broken).ptable, lay)
    ensures Exact(m, s.mem, s.refs, s.ptable, lay) ==> Exact(m, s.mem, s.refs, WithState(s, Broken).ptable, lay)
  {
    hide Good, Exact, Keeps;
    GoodSameSpaces(m, s.mem, s.refs, s.ptable, WithState(s, Broken).ptable, lay);
    KeepsExact(m, s.mem, s.refs, s.ptable, s.mem, s.refs, WithState(s, Broken).ptable, lay);
  }

  lemma AllocatedIsGood(m: Machine, lay: Layout, mem0: Mem, refs0: seq<nat>, ptable: seq<Proc>, i: nat, addr: nat,
                        pa: nat,
                        mem: Mem, refs: seq<nat>)
    requires PageAllocated(m, lay, mem0, refs0, ptable, i, addr, pa, mem, refs)
    ensures Good(m, mem, refs, ptable, lay)
  {
  }

  /** Slot 0 is never used. */
  lemma NotZero(m: Machine, mem: Mem, refs: seq<nat>, ptable: seq<Proc>, lay: Layout)
    requires Good(m, mem, refs, ptable, lay)
    ensures |ptable| > 0 && ptable[0].state.Free?
  {
  }

  lemma PickRuns(ptable: seq<Proc>, c: nat, p: nat)
    requires Picks(ptable, c, p)
    ensures IsRunnable(ptable, p)
  {
  }

  /** A page allocation leaves the kernel's table. */
  lemma KernelOwnStays(m: Machine, lay: Layout, mem0: Mem, refs0: seq<nat>, ptable: seq<Proc>, i: nat, addr: nat,
                       pa: nat, mem: Mem, refs: seq<nat>,
                       kernelPt: nat)
    requires Good(m, mem0, refs0, ptable, lay) && Live(ptable, i)
               && PageAllocated(m, lay, mem0, refs0, ptable, i, addr, pa, mem, refs)
    requires KernelTable(m, mem0, kernelPt, lay)
    ensures KernelTable(m, mem, kernelPt, lay)
  {
    var root := ptable[i].pagetable;
    IntactAt(m, mem0, refs0, ptable, lay, i);
    assert Agree(mem0, mem, Pages(mem0, kernelPt, 3)) by {
      forall f | f in Pages(mem0, kernelPt, 3)
        ensures f !in Pages(mem0, root, 3)
      {
        if f in Pages(mem0, root, 3) {
          TablePageUsed(mem0, root, lay, f);
        }
      }
    }
    KernelFrame(m, mem0, mem, kernelPt, lay);
  }

  lemma NoneRunnable(ptable: seq<Proc>)
    requires !exists i :: 0 <= i < |ptable| && ptable[i].state.Runnable?
    ensures !exists i: nat :: IsRunnable(ptable, i)
  {
  }

  lemma SomeRunnable(ptable: seq<Proc>)
    requires exists i :: 0 <= i < |ptable| && ptable[i].state.Runnable?
    ensures exists i: nat :: IsRunnable(ptable, i)
  {
    var i :| 0 <= i < |ptable| && ptable[i].state.Runnable?;
    assert IsRunnable(ptable, i);
  }

  lemma DemandedPages(requests: seq<Request>, lay: Layout)
    requires lay.procStart < lay.memVirtual
    requires forall i :: 0 <= i < |requests| ==> lay.procStart <= requests[i].page < lay.memVirtual
    ensures var all := Demanded(requests, lay);
            forall i :: 0 <= i < |all| ==> lay.procStart <= all[i].page < lay.memVirtual
  {
  }

  lemma LoopEnd(v: nat, end: nat)
    requires v <= end && v * PAGESIZE >= end * PAGESIZE
    ensures v == end
  {
  }

  lemma LowNext(lay: Layout, all: seq<Translation>, v: nat)
    requires lay.Ok() && v < lay.procStart == |all|
    ensures all[..v] + [all[v]] == all[..v + 1] && v * PAGESIZE + PAGESIZE == (v + 1) * PAGESIZE < VA_END
  {
  }

  lemma HandCounted(refs0: seq<nat>, refs: seq<nat>, hand: nat)
    requires Raised(refs0, refs, InHand(hand)) && 0 < hand < |refs|
    ensures refs[hand] > 0
  {
  }

  lemma UnusedNow(ptable: seq<Proc>)
    ensures SlotUnused(ptable, ptable)
  {
  }

  lemma LiveSlot(ptable: seq<Proc>, i: nat)
    requires Live(ptable, i)
    ensures i < |ptable| && !ptable[i].state.Free?
  {
  }

  lemma InOrderParts(m: Machine, mem: Mem, refs: seq<nat>, ptable: seq<Proc>, lay: Layout)
    requires InOrder(m, mem, refs, ptable, lay)
    ensures Good(m, mem, refs, ptable, lay) && Exact(m, mem, refs, ptable, lay)
  {
  }

  lemma SameMemory(m: Machine, mem: Mem, refs: seq<nat>, ptable: seq<Proc>, lay: Layout)
    requires Good(m, mem, refs, ptable, lay)
    ensures KeepsUsed(m, mem, refs, mem) && SameTranslations(mem, mem, ptable)
              && Keeps(m, mem, refs, ptable, mem, refs, ptable, lay)
  {
    hide Owned;
  }

  lemma OnlyLowest(ptable: seq<Proc>, slot: nat)
    requires LowestFree(ptable, slot)
    ensures exists s: nat :: LowestFree(ptable, s)
  {
  }

  /** A page of the parent is in use, so its bytes are still those at the start of the fork. */
  lemma SourceStays(m: Machine, k: Fork, lay: Layout, mem: Mem, refs: seq<nat>, extra: multiset<nat>, src: nat)
    requires ChildSound(m, k, lay, mem) && Counts(m, k, lay, mem, refs, extra) && src < m.npages && k.refs0[src] != 0
    ensures mem[src] == k.mem0[src] && refs[src] != 0
  {
  }

  lemma AlignedPage(f: nat, v: nat)
    ensures f * PAGESIZE / PAGESIZE == f && LowBits(f * PAGESIZE) == NONE && v * PAGESIZE % PAGESIZE == 0
  {
    var n := f * PAGESIZE;
    AlignedBits(n, f);
    assert n / 8 % 16 + n / 256 % 16 * 16 == 0;
  }

  lemma AlignedBits(n: nat, f: nat)
    requires n == 4096 * f
    ensures n % 2 == 0 && n / 2 % 2 == 0 && n / 4 % 2 == 0 && n / 128 % 2 == 0 && n / 8 % 16 == 0 && n / 256 % 16 == 0
  {
    MultipleOf(n, 2, 2048 * f);
    MultipleOf(n, 4, 1024 * f);
    MultipleOf(n, 8, 512 * f);
    MultipleOf(n, 128, 32 * f);
    MultipleOf(n, 256, 16 * f);
    MultipleOf(1024 * f * 2, 2, 1024 * f);
    MultipleOf(512 * f * 2, 2, 512 * f);
    MultipleOf(16 * f * 2, 2, 16 * f);
    MultipleOf(32 * f * 16, 16, 32 * f);
    MultipleOf(f * 16, 16, f);
  }

  lemma MultipleOf(n: nat, d: nat, q: nat)
    requires 0 < d && n == q * d
    ensures n / d == q && n % d == 0
  {
    Division(q, d, 0);
  }

  lemma Shift(gone: seq<nat>, x: nat, rest: seq<nat>, y: nat, tail: seq<nat>, root: nat, all: seq<nat>)
    requires gone + ([x] + (rest + [root])) == all
    ensures rest == [] ==> gone + [x] + [root] == all
    ensures rest == [y] + tail ==> gone + [x] + ([y] + (tail + [root])) == all
  {
    if rest == [y] + tail {
      assert gone + [x] + ([y] + (tail + [root])) == gone + ([x] + (([y] + tail) + [root]));
    }
  }

  lemma Begin(list: seq<nat>, x: nat, tail: seq<nat>, root: nat, all: seq<nat>)
    requires list + [root] == all && list == [x] + tail
    ensures [] + ([x] + (tail + [root])) == all
  {
  }

  lemma Prefix(a: seq<nat>, x: nat, b: seq<nat>, all: seq<nat>)
    requires a + ([x] + b) == all
    ensures a + [x] <= all && x in all && (b == [] ==> a + [x] == all)
  {
    assert all == a + [x] + b;
    assert all[|a|] == x;
  }

  lemma {:induction false} UserFramesGrow(view: seq<Translation>, lo: nat, v: nat, hi: nat)
    requires v <= hi <= |view|
    ensures UserFrames(view, lo, v) <= UserFrames(view, lo, hi)
    decreases hi
  {
    hide *;
    if v < hi {
      UserFramesGrow(view, lo, v, hi - 1);
      UserFramesStep(view, lo, hi);
      GrowsBy(UserFrames(view, lo, v), UserFrames(view, lo, hi - 1),
              if lo < hi then UserFrame(view[hi - 1]) else multiset{});
    }
  }

  lemma GrowsBy(a: multiset<nat>, b: multiset<nat>, c: multiset<nat>)
    requires a <= b
    ensures a <= b + c
  {
  }

  /** While user pages are being released, the next one is still counted. */
  lemma NextUserFrame(view: seq<Translation>, refs0: seq<nat>, refs: seq<nat>, lay: Layout, v: nat)
    requires |view| == lay.memVirtual && lay.procStart <= v < lay.memVirtual
    requires Dropped(refs0, refs, UserFrames(view, lay.procStart, v))
    requires forall f :: 0 <= f < |refs0| ==> UserBag(view, lay)[f] <= refs0[f]
    ensures User(view[v]) ==> FrameIn(view[v]) in UserBag(view, lay)
    ensures User(view[v]) && FrameIn(view[v]) < |refs| ==> refs[FrameIn(view[v])] > 0
  {
    if User(view[v]) {
      var f := FrameIn(view[v]);
      UserFramesGrow(view, lay.procStart, v + 1, lay.memVirtual);
    }
  }

  lemma DropNext(view: seq<Translation>, refs0: seq<nat>, refs1: seq<nat>, refs2: seq<nat>, lo: nat, v: nat)
    requires lo <= v < |view| && Dropped(refs0, refs1, UserFrames(view, lo, v))
    requires var t := view[v];
             if User(t) then FrameIn(t) < |refs1| && refs1[FrameIn(t)] > 0
                 && refs2 == refs1[FrameIn(t) := refs1[FrameIn(t)] - 1]
             else refs2 == refs1
    ensures Dropped(refs0, refs2, UserFrames(view, lo, v + 1))
  {
    if User(view[v]) {
      DropOne(refs0, refs1, refs2, UserFrames(view, lo, v), FrameIn(view[v]));
    } else {
      assert UserFrames(view, lo, v + 1) == UserFrames(view, lo, v);
    }
  }

  lemma NothingDropped(refs: seq<nat>, gone: seq<nat>)
    requires gone == []
    ensures Dropped(refs, refs, multiset(gone))
  {
  }

  lemma DropOne(refs0: seq<nat>, refs1: seq<nat>, refs2: seq<nat>, gone: multiset<nat>, f: nat)
    requires Dropped(refs0, refs1, gone) && f < |refs1| && refs1[f] > 0 && refs2 == refs1[f := refs1[f] - 1]
    ensures Dropped(refs0, refs2, gone + multiset{f})
  {
  }

  /** The uses are the user pages and the table pages. */
  lemma SplitUses(m: Machine, mem: Mem, refs: seq<nat>, root: nat, lay: Layout)
    requires |refs| == m.npages && forall f :: f in Uses(mem, root, lay) ==> m.Allocatable(f)
    requires forall f :: 0 <= f < m.npages ==> Uses(mem, root, lay)[f] <= refs[f]
    ensures forall f :: f in UserBag(View(mem, root, lay.memVirtual), lay) ==> m.Allocatable(f)
    ensures forall f :: f in Pages(mem, root, 3) ==> m.Allocatable(f)
    ensures forall f :: 0 <= f < m.npages ==>
              UserBag(View(mem, root, lay.memVirtual), lay)[f] + multiset(Pages(mem, root, 3))[f] <= refs[f]
  {
  }

  lemma Counters(m: Machine)
    requires m.Valid()
    ensures |m.refs| == m.npages
  {
  }

  lemma UsesAreBoth(mem: Mem, root: nat, lay: Layout)
    ensures Uses(mem, root, lay) == UserBag(View(mem, root, lay.memVirtual), lay) + multiset(Pages(mem, root, 3))
  {
  }

  lemma StillCounted(refs0: seq<nat>, refs: seq<nat>, gone: multiset<nat>, left: multiset<nat>)
    requires Dropped(refs0, refs, gone) && forall f :: 0 <= f < |refs0| ==> gone[f] + left[f] <= refs0[f]
    ensures forall f :: 0 <= f < |refs| ==> left[f] <= refs[f]
  {
  }

  lemma BothDropped(refs0: seq<nat>, refs1: seq<nat>, refs2: seq<nat>, a: multiset<nat>, b: multiset<nat>)
    requires Dropped(refs0, refs1, a) && Dropped(refs1, refs2, b)
    ensures Dropped(refs0, refs2, a + b)
  {
  }

  lemma FromStart(mem: Mem, root: nat)
    ensures From(mem, root, 3, PathOf(0)) + [root] == Pages(mem, root, 3)
  {
    assert PathOf(0) == [0, 0, 0, 0];
    FromZero(mem, root, 3, PathOf(0));
  }

  /** While listed pages are being released, the next one is still counted. */
  lemma NextListed(all: seq<nat>, gone: seq<nat>, x: nat, refs0: seq<nat>, refs: seq<nat>)
    requires gone + [x] <= all
    requires Dropped(refs0, refs, multiset(gone))
    requires forall f :: 0 <= f < |refs0| ==> multiset(all)[f] <= refs0[f]
    ensures x in all && (x < |refs| ==> refs[x] > 0)
  {
    assert all == gone + [x] + all[|gone| + 1..];
    assert multiset(all)[x] >= multiset(gone)[x] + 1;
    assert x in multiset(all);
  }

  /** What the accessors of a fresh iterator at page `v` return. */
  lemma AccessorsAt(mem: Mem, root: nat, v: nat)
    requires TidyAt(mem, root, PathOf(v * PAGESIZE)) && v * PAGESIZE < VA_LOWEND
    ensures var c, t := FreshCursor(mem, root, v * PAGESIZE), PageAt(mem, root, v);
            && (Present(Read(mem, c.slot)) <==> t.Mapped?)
            && (And(And(c.perm, Read(mem, c.slot).flags), PTE_PU) == PTE_PU <==> User(t))
            && (And(And(c.perm, Read(mem, c.slot).flags), PTE_PW) == PTE_PW <==> Writable(t))
            && (t.Mapped? ==> c.level == 0 && t.perm == And(c.perm, Read(mem, c.slot).flags)
                              && t.pa == FrameOf(Read(mem, c.slot)) * PAGESIZE && FrameIn(t) < 0x10_0000)
  {
    CursorMeaning(mem, root, v * PAGESIZE);
    HasIsAllows(mem, root, v * PAGESIZE, PTE_PU);
    HasIsAllows(mem, root, v * PAGESIZE, PTE_PW);
  }
}
