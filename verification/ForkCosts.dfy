/** What a fork costs in pages: its root, a table for every block that has a mapping, and a page for every user page
that the parent can write. */
module ForkCosts {
  import opened Paging
  import opened PageTables
  import opened Depths
  import opened Allocator
  import opened VmIters
  import opened FreePages
  import opened Spaces
  import opened Accounts
  import opened Forks

  /** The blocks that need a table for the mapped ones of the first `v` pages. */
  ghost function Blocks(view: seq<Translation>, v: nat): set<Block>
    requires v <= |view|
  {
    if v == 0 then {} else Blocks(view, v - 1) + (if view[v - 1].Mapped? then Touch((v - 1) * PAGESIZE) else {})
  }

  /** How many of the first `v` pages are copied. */
  ghost function Copies(view: seq<Translation>, v: nat, lay: Layout): nat
    requires v <= |view|
  {
    if v == 0 then 0 else Copies(view, v - 1, lay) + if Separate(view[v - 1], v - 1, lay) then 1 else 0
  }

  /** The pages that the copy of the first `v` pages takes. */
  ghost function Cost(view: seq<Translation>, v: nat, lay: Layout): nat
    requires v <= |view|
  {
    1 + |Blocks(view, v)| + Copies(view, v, lay)
  }

  lemma CostStep(view: seq<Translation>, v: nat, lay: Layout)
    requires v < |view|
    ensures Cost(view, v + 1, lay)
              == Cost(view, v, lay) + (if view[v].Mapped? then Missing(Blocks(view, v), v * PAGESIZE) else 0)
                                      + if Separate(view[v], v, lay) then 1 else 0
  {
    hide Touch;
    TouchSize(Blocks(view, v), v * PAGESIZE);
    assert Blocks(view, v) + {} == Blocks(view, v);
  }

  lemma {:induction false} CostMonotone(view: seq<Translation>, v: nat, w: nat, lay: Layout)
    requires v <= w <= |view|
    ensures Cost(view, v, lay) <= Cost(view, w, lay)
    decreases w
  {
    if v < w {
      CostMonotone(view, v, w - 1, lay);
      CostStep(view, w - 1, lay);
    }
  }

  /** The free pages at the start are those left, those that the copy so far has taken, and `hand` in hand; and the
      child has exactly the tables that it needs. */
  ghost predicate Ledger(m: Machine, k: Fork, lay: Layout, mem: Mem, refs: seq<nat>, v: nat, hand: nat)
    requires k.pid < |k.ptable|
  {
    && v <= lay.memVirtual
    && |FreeSet(m, refs)| + Cost(k.ParentView(lay), v, lay) + hand == |FreeSet(m, k.refs0)|
    && Mirrors(mem, k.child, Blocks(k.ParentView(lay), v))
  }

  /** There were not enough pages for a copy of the first `v` pages. */
  ghost predicate Short(m: Machine, k: Fork, lay: Layout, v: nat)
    requires k.pid < |k.ptable|
  {
    v <= lay.memVirtual && |FreeSet(m, k.refs0)| < Cost(k.ParentView(lay), v, lay)
  }

  lemma LedgerBegins(m: Machine, k: Fork, lay: Layout, mem: Mem, refs: seq<nat>)
    requires k.pid < |k.ptable| && m.Allocatable(k.child) && k.child < |k.refs0| && k.refs0[k.child] == 0
               && k.child < |k.mem0|
    requires mem == k.mem0[k.child := Filled(ZERO)] && refs == k.refs0[k.child := 1]
    ensures Ledger(m, k, lay, mem, refs, 0, 0)
  {
    FreeLess(m, k.refs0, k.child);
    MirrorsEmpty(mem, k.child);
  }

  /** A page is taken in hand. */
  lemma LedgerTakes(m: Machine, k: Fork, lay: Layout, mem: Mem, refs: seq<nat>, v: nat, mem': Mem, pa: nat)
    requires k.pid < |k.ptable| && Ledger(m, k, lay, mem, refs, v, 0)
    requires m.Allocatable(pa) && pa < |refs| && refs[pa] == 0 && Agree(mem, mem', Pages(mem, k.child, 3))
    ensures Ledger(m, k, lay, mem', refs[pa := 1], v, 1)
  {
    FreeLess(m, refs, pa);
    LevelsFrame(mem, mem', k.child);
    MirrorsSame(mem, mem', k.child, Blocks(k.ParentView(lay), v));
  }

  /** Page `v` has been mapped. */
  lemma LedgerMaps(m: Machine, k: Fork, lay: Layout, mem: Mem, refs: seq<nat>, v: nat, hand: nat,
                   mem': Mem, refs': seq<nat>, added: seq<nat>, p: Flags)
    requires lay.Ok() && k.pid < |k.ptable| && v < lay.memVirtual && Ledger(m, k, lay, mem, refs, v, hand)
    requires Accounted(mem, refs, mem', refs', k.child, added) && NoDup(Pages(mem', k.child, 3))
               && forall f :: f in added ==> m.Allocatable(f)
    requires Deepened(mem, mem', k.child, v * PAGESIZE, |added|, p, true)
    requires p != NONE <==> k.ParentView(lay)[v].Mapped?
    requires hand == if Separate(k.ParentView(lay)[v], v, lay) then 1 else 0
    ensures Ledger(m, k, lay, mem', refs', v + 1, 0)
  {
    hide Mirrors, Extended, SameLevels, Touch, Level, Missing;
    var view := k.ParentView(lay);
    var tables := Blocks(view, v);
    PageIsAddress(lay, v);
    CostStep(view, v, lay);
    FreeAfter(m, mem, refs, mem', refs', k.child, added);
    if view[v].Mapped? {
      MissingIsLevel(mem, k.child, tables, v * PAGESIZE);
      MirrorsMore(mem, mem', k.child, tables, v * PAGESIZE);
    } else {
      MirrorsSame(mem, mem', k.child, tables);
      assert tables + {} == tables;
    }
  }

  /** Page `v` could not be mapped for want of tables. */
  lemma LedgerFails(m: Machine, k: Fork, lay: Layout, mem: Mem, refs: seq<nat>, v: nat, hand: nat,
                    mem': Mem, refs': seq<nat>, added: seq<nat>, p: Flags)
    requires lay.Ok() && k.pid < |k.ptable| && v < lay.memVirtual && Ledger(m, k, lay, mem, refs, v, hand)
    requires Accounted(mem, refs, mem', refs', k.child, added) && NoDup(Pages(mem', k.child, 3))
               && forall f :: f in added ==> m.Allocatable(f)
    requires Deepened(mem, mem', k.child, v * PAGESIZE, |added|, p, false) && AllUsed(m, refs')
    requires k.ParentView(lay)[v].Mapped?
    requires hand == if Separate(k.ParentView(lay)[v], v, lay) then 1 else 0
    ensures Short(m, k, lay, v + 1)
  {
    hide Mirrors, Extended, SameLevels, Touch, Level, Missing;
    var view := k.ParentView(lay);
    PageIsAddress(lay, v);
    CostStep(view, v, lay);
    FreeAfter(m, mem, refs, mem', refs', k.child, added);
    NoneFree(m, refs');
    MissingIsLevel(mem, k.child, Blocks(view, v), v * PAGESIZE);
  }

  /** No page was left for the copy of page `v`. */
  lemma LedgerEmpty(m: Machine, k: Fork, lay: Layout, mem: Mem, refs: seq<nat>, v: nat)
    requires k.pid < |k.ptable| && v < lay.memVirtual && Ledger(m, k, lay, mem, refs, v, 0)
    requires AllUsed(m, refs) && Separate(k.ParentView(lay)[v], v, lay)
    ensures Short(m, k, lay, v + 1)
  {
    NoneFree(m, refs);
    CostStep(k.ParentView(lay), v, lay);
  }

  /** A page that is in use is counted once more. */
  lemma LedgerShares(m: Machine, k: Fork, lay: Layout, mem: Mem, refs: seq<nat>, v: nat, f: nat, n: nat)
    requires k.pid < |k.ptable| && Ledger(m, k, lay, mem, refs, v, 0) && f < |refs| && refs[f] != 0 && n != 0
    ensures Ledger(m, k, lay, mem, refs[f := n], v, 0)
  {
    FreeSame(m, refs, f, n);
  }

  /** The pages that a fork of a process with this table needs. */
  ghost function ForkNeeds(mem: Mem, root: nat, lay: Layout): nat {
    Cost(View(mem, root, lay.memVirtual), lay.memVirtual, lay)
  }

  lemma ShortMeans(m: Machine, k: Fork, lay: Layout, v: nat)
    requires k.pid < |k.ptable| && Short(m, k, lay, v)
    ensures |FreeSet(m, k.refs0)| < ForkNeeds(k.mem0, k.ptable[k.pid].pagetable, lay)
  {
    CostMonotone(k.ParentView(lay), v, lay.memVirtual, lay);
  }

  lemma CompleteMeans(m: Machine, k: Fork, lay: Layout, mem: Mem, refs: seq<nat>)
    requires k.pid < |k.ptable| && Ledger(m, k, lay, mem, refs, lay.memVirtual, 0)
    ensures |FreeSet(m, refs)| + ForkNeeds(k.mem0, k.ptable[k.pid].pagetable, lay) == |FreeSet(m, k.refs0)|
  {
  }

  // ---------------------------------------------------------------------------------------
  // Counters at their end

  /** A page that a fork shares, and whose counter cannot count it once more. */
  ghost predicate Saturated(refs: seq<nat>, t: Translation) {
    t.Mapped? && !Writable(t) && FrameIn(t) < |refs| && refs[FrameIn(t)] + 1 == REFCOUNT_END
  }

  /** A fork comes to share page `v`, and wraps its counter. */
  ghost predicate WrapsAt(m: Machine, refs: seq<nat>, view: seq<Translation>, lay: Layout, v: nat) {
    v < |view| && Saturated(refs, view[v]) && |FreeSet(m, refs)| >= Cost(view, v + 1, lay)
  }

  /** A fork wraps the counter of a page that it shares. */
  ghost predicate ForkWraps(m: Machine, mem: Mem, refs: seq<nat>, root: nat, lay: Layout) {
    exists v: nat :: WrapsAt(m, refs, View(mem, root, lay.memVirtual), lay, v)
  }

  /** None of the first `v` pages wraps. */
  ghost predicate NoWrap(m: Machine, k: Fork, lay: Layout, v: nat)
    requires k.pid < |k.ptable|
  {
    forall w: nat :: w < v ==> !WrapsAt(m, k.refs0, k.ParentView(lay), lay, w)
  }

  lemma NoWrapBegins(m: Machine, k: Fork, lay: Layout)
    requires k.pid < |k.ptable|
    ensures NoWrap(m, k, lay, 0)
  {
  }

  lemma NoWrapMore(m: Machine, k: Fork, lay: Layout, v: nat)
    requires k.pid < |k.ptable| && v < lay.memVirtual && NoWrap(m, k, lay, v)
               && !Saturated(k.refs0, k.ParentView(lay)[v])
    ensures NoWrap(m, k, lay, v + 1)
  {
    hide Saturated;
  }

  /** A fork that runs out of memory before a page does not come to share it. */
  lemma NoWrapShort(m: Machine, k: Fork, lay: Layout, v: nat)
    requires k.pid < |k.ptable| && v < lay.memVirtual && NoWrap(m, k, lay, v) && Short(m, k, lay, v + 1)
    ensures !ForkWraps(m, k.mem0, k.refs0, k.ptable[k.pid].pagetable, lay)
  {
    hide Saturated, Cost;
    forall w: nat
      ensures !WrapsAt(m, k.refs0, k.ParentView(lay), lay, w)
    {
      if v <= w < lay.memVirtual {
        CostMonotone(k.ParentView(lay), v + 1, w + 1, lay);
      }
    }
  }

  lemma NoWrapComplete(m: Machine, k: Fork, lay: Layout)
    requires k.pid < |k.ptable| && NoWrap(m, k, lay, lay.memVirtual)
    ensures !ForkWraps(m, k.mem0, k.refs0, k.ptable[k.pid].pagetable, lay)
  {
    hide Saturated, Cost;
    assert k.ParentView(lay) == View(k.mem0, k.ptable[k.pid].pagetable, lay.memVirtual);
  }

  /** The page at which a fork wraps is in use, but not counted any more. */
  lemma WrappedIsBad(m: Machine, k: Fork, lay: Layout, mem: Mem, refs: seq<nat>, v: nat)
    requires k.Started(m, lay) && v < lay.memVirtual && KeepsUsed(m, k.mem0, k.refs0, mem) && |refs| == m.npages
    requires var t := k.ParentView(lay)[v]; t.Mapped? && !Writable(t) && FrameIn(t) < |refs| && refs[FrameIn(t)] == 0
    ensures !Good(m, mem, refs, k.ptable, lay)
  {
    hide Owned, View;
    var root, f := k.ptable[k.pid].pagetable, FrameIn(k.ParentView(lay)[v]);
    ParentProper(m, k, lay, v);
    ParentFrame(m, k, lay, v);
    LiveAgree(m, k.mem0, k.refs0, mem, k.ptable, lay, k.pid);
    UsesFrame(k.mem0, mem, root, lay);
    if Good(m, mem, refs, k.ptable, lay) {
      UsesCounted(m, mem, refs, k.ptable, lay, k.pid);
    }
  }

  /** While the accounts are exact no counter is near its end. */
  lemma ExactNeverWraps(m: Machine, mem: Mem, refs: seq<nat>, ptable: seq<Proc>, lay: Layout, i: nat)
    requires Good(m, mem, refs, ptable, lay) && Exact(m, mem, refs, ptable, lay) && Live(ptable, i)
    ensures !ForkWraps(m, mem, refs, ptable[i].pagetable, lay)
  {
    hide Cost, FreeSet, Uses, Owned;
    var view := View(mem, ptable[i].pagetable, lay.memVirtual);
    forall v: nat
      ensures !WrapsAt(m, refs, view, lay, v)
    {
      if v < lay.memVirtual && Saturated(refs, view[v]) {
        IntactAt(m, mem, refs, ptable, lay, i);
        assert Proper(view[v], v, lay);
        UserFrameListed(view, lay.procStart, lay.memVirtual, v);
        UsesListed(mem, ptable[i].pagetable, lay, FrameIn(view[v]));
        CountsBounded(m, mem, refs, ptable, lay, FrameIn(view[v]));
      }
    }
  }

  lemma UsesListed(mem: Mem, root: nat, lay: Layout, f: nat)
    requires f in UserBag(View(mem, root, lay.memVirtual), lay)
    ensures f in Uses(mem, root, lay)
  {
  }
}
