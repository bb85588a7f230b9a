/** What `syscall_fork` builds, page by page, as a relation between memories.

`Copying` describes the partial child after the first `v` pages: its translations so far are
copies of the parent's, every count is the count before the fork plus the child's uses (plus a page
in hand), and memory differs from before only in pages that were free.
 */
module Forks {
  import opened Paging
  import opened PageTables
  import opened Allocator
  import opened VmIters
  import opened Spaces
  import opened Accounts

  /** The state at the start of a fork by process `pid`, and the root page of the child. */
  datatype Fork = Fork(mem0: Mem, refs0: seq<nat>, ptable: seq<Proc>, pid: nat, child: nat) {
    ghost function ParentView(lay: Layout): (s: seq<Translation>)
      requires pid < |ptable|
      ensures |s| == lay.memVirtual
    {
      View(mem0, ptable[pid].pagetable, lay.memVirtual)
    }

    ghost predicate Started(m: Machine, lay: Layout) {
      && lay.Ok() && Good(m, mem0, refs0, ptable, lay) && Live(ptable, pid)
      && m.Allocatable(child) && refs0[child] == 0
    }
  }

  /** A page whose writers fork must separate: open to the user for writing, and not the console. */
  ghost predicate Separate(t: Translation, v: nat, lay: Layout) {
    User(t) && Writable(t) && v != lay.console
  }

  /** The child's translation `t'` of page `v`, given the parent's `t`: the same permissions; a page of
      its own with the same contents where writers are separated, and the same page elsewhere. */
  ghost predicate CopyOf(mem0: Mem, refs0: seq<nat>, mem: Mem, t: Translation, t': Translation, v: nat, lay: Layout) {
    if t.Unmapped? then t'.Unmapped?
    else
      && t'.Mapped? && t'.perm == t.perm
      && if Separate(t, v, lay) then
           var f, f' := FrameIn(t), FrameIn(t');
           t'.pa % PAGESIZE == 0 && f < |mem0| && f' < |mem| && f' < |refs0| && refs0[f'] == 0 && mem[f'] == mem0[f]
         else t'.pa == t.pa
  }

  ghost predicate Copied(k: Fork, lay: Layout, mem: Mem, view: seq<Translation>, v: nat)
    requires k.pid < |k.ptable|
  {
    && v <= |view| == lay.memVirtual
    && forall w :: 0 <= w < v ==> CopyOf(k.mem0, k.refs0, mem, k.ParentView(lay)[w], view[w], w, lay)
  }

  /** The child's table so far: built in pages that were free, each page used once. */
  ghost predicate ChildSound(m: Machine, k: Fork, lay: Layout, mem: Mem) {
    && KeepsUsed(m, k.mem0, k.refs0, mem)
    && Tidy(mem, k.child) && Beyond(mem, k.child, lay)
    && (forall f :: Uses(mem, k.child, lay)[f] <= 1)
    && (forall f :: f in Uses(mem, k.child, lay) ==> m.Allocatable(f))
    && (forall f :: f in Pages(mem, k.child, 3) ==> f < m.npages && k.refs0[f] == 0)
  }

  /** Every count is the count before the fork, plus the child's uses, plus the pages in hand. */
  ghost predicate Counts(m: Machine, k: Fork, lay: Layout, mem: Mem, refs: seq<nat>, extra: multiset<nat>) {
    && |refs| == |k.refs0| == m.npages
    && forall f :: 0 <= f < m.npages ==> refs[f] == k.refs0[f] + Uses(mem, k.child, lay)[f] + extra[f]
  }

  /** The first `v` pages are copied, the others not mapped yet. */
  ghost predicate Progress(k: Fork, lay: Layout, mem: Mem, view: seq<Translation>, v: nat)
    requires k.pid < |k.ptable|
  {
    && Copied(k, lay, mem, view, v)
    && AllProper(view, lay) && (forall w :: v <= w < lay.memVirtual ==> view[w] == Unmapped)
  }

  ghost predicate Copying(m: Machine, k: Fork, lay: Layout, mem: Mem, refs: seq<nat>, v: nat, extra: multiset<nat>)
    requires k.pid < |k.ptable|
  {
    && v <= lay.memVirtual
    && ChildSound(m, k, lay, mem)
    && Counts(m, k, lay, mem, refs, extra)
    && Progress(k, lay, mem, View(mem, k.child, lay.memVirtual), v)
  }

  /** What `MapPage` at page `v` of table `root` does to memory and counts. */
  ghost predicate MapEffect(m: Machine, mem: Mem, refs: seq<nat>, mem': Mem, refs': seq<nat>, root: nat, lay: Layout,
                            added: seq<nat>, view': seq<Translation>)
  {
    && Accounted(mem, refs, mem', refs', root, added) && (forall f :: f in added ==> m.Allocatable(f))
    && Tidy(mem', root) && NoDup(Pages(mem', root, 3))
    && View(mem', root, lay.memVirtual) == view' && SameBeyond(mem, mem', root, lay)
  }

  // ---------------------------------------------------------------------------------------

  lemma EffectAccounts(m: Machine, mem: Mem, refs: seq<nat>, mem': Mem, refs': seq<nat>, root: nat, lay: Layout,
                       added: seq<nat>, view': seq<Translation>)
    requires MapEffect(m, mem, refs, mem', refs', root, lay, added, view')
    ensures Accounted(mem, refs, mem', refs', root, added)
  {
  }

  /** The user page, if any, that mapping `t` at page `v` adds to the uses. */
  ghost function UserGain(t: Translation, v: nat, lay: Layout): multiset<nat> {
    if lay.procStart <= v then UserFrame(t) else multiset{}
  }

  lemma UsesAfter(mem: Mem, mem': Mem, root: nat, lay: Layout, v: nat, t: Translation, added: multiset<nat>)
    requires v < lay.memVirtual && View(mem, root, lay.memVirtual)[v] == Unmapped
    requires multiset(Pages(mem', root, 3)) == multiset(Pages(mem, root, 3)) + added
    requires View(mem', root, lay.memVirtual) == View(mem, root, lay.memVirtual)[v := t]
    ensures Uses(mem', root, lay) == Uses(mem, root, lay) + added + UserGain(t, v, lay)
  {
    var view, view' := View(mem, root, lay.memVirtual), View(mem', root, lay.memVirtual);
    if lay.procStart <= v {
      UserFramesUpdate(view, view', lay.procStart, lay.memVirtual, v, t);
      assert UserFrames(view', lay.procStart, lay.memVirtual) + multiset{}
          == UserFrames(view', lay.procStart, lay.memVirtual);
    } else {
      UserFramesUntouched(view, view', lay.procStart, lay.memVirtual, v, t);
    }
  }

  /** A page that the kernel takes while it maps was free at the start of the fork, and not in hand. */
  lemma TakenWasFree(m: Machine, k: Fork, lay: Layout, mem: Mem, refs: seq<nat>, extra: multiset<nat>,
                     mem': Mem, refs': seq<nat>, added: seq<nat>, f: nat)
    requires |mem| == m.npages && Counts(m, k, lay, mem, refs, extra)
    requires Accounted(mem, refs, mem', refs', k.child, added) && NoDup(Pages(mem', k.child, 3)) && f in added
    ensures f < m.npages && k.refs0[f] == 0 && multiset(added)[f] == 1 && Uses(mem, k.child, lay)[f] == 0
              && extra[f] == 0
  {
    assert refs[f] == 0;
    assert f in multiset(added);
    assert multiset(Pages(mem', k.child, 3))[f] <= 1;
  }

  lemma UsedPagesStay(m: Machine, k: Fork, lay: Layout, mem: Mem, refs: seq<nat>, mem': Mem, refs': seq<nat>,
                      added: seq<nat>)
    requires ChildSound(m, k, lay, mem) && Accounted(mem, refs, mem', refs', k.child, added)
    requires forall f :: f in added ==> f < m.npages && m.Allocatable(f) && k.refs0[f] == 0
    ensures KeepsUsed(m, k.mem0, k.refs0, mem')
  {
    forall f | 0 <= f < m.npages && !(m.Allocatable(f) && k.refs0[f] == 0)
      ensures mem'[f] == k.mem0[f]
    {
      if f in Pages(mem, k.child, 3) {
        TablePageUsed(mem, k.child, lay, f);
      }
    }
  }

  /** Mapping adds only pages that were free at the start, and keeps everything else. */
  lemma AddedWereFree(m: Machine, k: Fork, lay: Layout, mem: Mem, refs: seq<nat>, extra: multiset<nat>,
                      mem': Mem, refs': seq<nat>, added: seq<nat>, view': seq<Translation>)
    requires ChildSound(m, k, lay, mem) && Counts(m, k, lay, mem, refs, extra)
    requires MapEffect(m, mem, refs, mem', refs', k.child, lay, added, view')
    ensures KeepsUsed(m, k.mem0, k.refs0, mem')
    ensures forall f :: f in Pages(mem', k.child, 3) ==> f < m.npages && k.refs0[f] == 0
    ensures forall f :: f in added ==> multiset(added)[f] == 1 && Uses(mem, k.child, lay)[f] == 0 && extra[f] == 0
  {
    forall f | f in added
      ensures f < m.npages && k.refs0[f] == 0 && Uses(mem, k.child, lay)[f] == 0 && extra[f] == 0
                && multiset(added)[f] == 1
    {
      TakenWasFree(m, k, lay, mem, refs, extra, mem', refs', added, f);
    }
    forall f | f in Pages(mem', k.child, 3)
      ensures f < m.npages && k.refs0[f] == 0
    {
      OldOrAdded(mem, mem', k.child, added, f);
    }
    UsedPagesStay(m, k, lay, mem, refs, mem', refs', added);
  }

  lemma OldOrAdded(mem: Mem, mem': Mem, root: nat, added: seq<nat>, f: nat)
    requires multiset(Pages(mem', root, 3)) == multiset(Pages(mem, root, 3)) + multiset(added)
    requires f in Pages(mem', root, 3)
    ensures f in Pages(mem, root, 3) || f in added
  {
    assert f in multiset(Pages(mem', root, 3));
    assert f in multiset(Pages(mem, root, 3)) || f in multiset(added);
  }

  /** A user page of the child, being no table page and not free, is not written by mapping. */
  lemma UserPageUntouched(mem: Mem, refs: seq<nat>, mem': Mem, refs': seq<nat>, root: nat, lay: Layout, added: seq<nat>,
                          view: seq<Translation>, w: nat)
    requires view == View(mem, root, lay.memVirtual) && lay.procStart <= w < lay.memVirtual && User(view[w])
    requires Uses(mem, root, lay)[FrameIn(view[w])] <= 1
    requires FrameIn(view[w]) < |refs| && refs[FrameIn(view[w])] > 0
    requires Accounted(mem, refs, mem', refs', root, added)
    ensures mem'[FrameIn(view[w])] == mem[FrameIn(view[w])]
  {
    var f := FrameIn(view[w]);
    UserFrameListed(view, lay.procStart, lay.memVirtual, w);
    assert f in UserBag(view, lay);
    assert f !in multiset(Pages(mem, root, 3));
  }

  /** A separated page is a user page above PROC_START_ADDR, and so is its copy. */
  lemma SeparateIsHigh(t: Translation, t': Translation, w: nat, lay: Layout)
    requires Proper(t, w, lay) && Separate(t, w, lay) && t'.Mapped? && t'.perm == t.perm
    ensures lay.procStart <= w && User(t') && Writable(t')
  {
  }

  lemma CopiedAt(k: Fork, lay: Layout, mem: Mem, view: seq<Translation>, v: nat, w: nat)
    requires k.pid < |k.ptable| && Copied(k, lay, mem, view, v) && w < v
    ensures CopyOf(k.mem0, k.refs0, mem, k.ParentView(lay)[w], view[w], w, lay)
  {
  }

  lemma CopyStays(mem0: Mem, refs0: seq<nat>, mem: Mem, mem': Mem, t: Translation, t': Translation, w: nat, lay: Layout)
    requires CopyOf(mem0, refs0, mem, t, t', w, lay) && |mem'| == |mem|
    requires t.Mapped? && Separate(t, w, lay) ==> mem'[FrameIn(t')] == mem[FrameIn(t')]
    ensures CopyOf(mem0, refs0, mem', t, t', w, lay)
  {
  }

  lemma SeparatedStays(m: Machine, k: Fork, lay: Layout, mem: Mem, refs: seq<nat>, v: nat, extra: multiset<nat>,
                       mem': Mem, refs': seq<nat>, added: seq<nat>, w: nat, t: Translation, t': Translation)
    requires k.Started(m, lay) && w < v <= lay.memVirtual && Copying(m, k, lay, mem, refs, v, extra)
    requires Accounted(mem, refs, mem', refs', k.child, added)
    requires t == k.ParentView(lay)[w] && t' == View(mem, k.child, lay.memVirtual)[w]
    requires t.Mapped? && Separate(t, w, lay) && t'.Mapped? && t'.perm == t.perm
    ensures FrameIn(t') < |mem| && mem'[FrameIn(t')] == mem[FrameIn(t')]
  {
    ParentProper(m, k, lay, w);
    SeparateIsHigh(t, t', w, lay);
    ChildFrameCounted(m, k, lay, mem, refs, v, extra, w);
    UserPageUntouched(mem, refs, mem', refs', k.child, lay, added, View(mem, k.child, lay.memVirtual), w);
  }

  /** The copies made so far keep their contents. */
  lemma CopiesStay(m: Machine, k: Fork, lay: Layout, mem: Mem, refs: seq<nat>, v: nat, extra: multiset<nat>,
                   mem': Mem, refs': seq<nat>, added: seq<nat>)
    requires k.Started(m, lay) && v <= lay.memVirtual && Copying(m, k, lay, mem, refs, v, extra)
    requires Accounted(mem, refs, mem', refs', k.child, added)
    ensures Copied(k, lay, mem', View(mem, k.child, lay.memVirtual), v)
  {
    var view := View(mem, k.child, lay.memVirtual);
    forall w | 0 <= w < v
      ensures CopyOf(k.mem0, k.refs0, mem', k.ParentView(lay)[w], view[w], w, lay)
    {
      var t, t' := k.ParentView(lay)[w], view[w];
      CopiedAt(k, lay, mem, view, v, w);
      if t.Mapped? && Separate(t, w, lay) {
        SeparatedStays(m, k, lay, mem, refs, v, extra, mem', refs', added, w, t, t');
      }
      CopyStays(k.mem0, k.refs0, mem, mem', t, t', w, lay);
    }
  }

  lemma ChildFrameCounted(m: Machine, k: Fork, lay: Layout, mem: Mem, refs: seq<nat>, v: nat, extra: multiset<nat>,
                          w: nat)
    requires k.pid < |k.ptable| && Copying(m, k, lay, mem, refs, v, extra)
    requires lay.procStart <= w < lay.memVirtual && User(View(mem, k.child, lay.memVirtual)[w])
    ensures var f := FrameIn(View(mem, k.child, lay.memVirtual)[w]);
            f < |refs| && refs[f] > 0 && Uses(mem, k.child, lay)[f] == 1
  {
    var view := View(mem, k.child, lay.memVirtual);
    UserFrameListed(view, lay.procStart, lay.memVirtual, w);
    assert FrameIn(view[w]) in UserBag(view, lay);
    assert FrameIn(view[w]) in Uses(mem, k.child, lay);
  }

  lemma ParentProper(m: Machine, k: Fork, lay: Layout, w: nat)
    requires k.Started(m, lay) && w < lay.memVirtual
    ensures Proper(k.ParentView(lay)[w], w, lay)
  {
    IntactAt(m, k.mem0, k.refs0, k.ptable, lay, k.pid);
  }

  /** The user pages `gain` that join `uses` are new: not used yet, and not taken for tables just now. */
  ghost predicate NewPages(m: Machine, gain: multiset<nat>, added: seq<nat>, uses: multiset<nat>) {
    forall f :: f in gain ==> gain[f] == 1 && uses[f] == 0 && f !in added && m.Allocatable(f)
  }

  /** The counts move from the pages in hand, `extra`, to the pages gained and those still in hand. */
  ghost predicate Settles(refs': seq<nat>, refs'': seq<nat>, gain: multiset<nat>, extra: multiset<nat>,
                          extra': multiset<nat>) {
    |refs''| == |refs'| && forall f :: 0 <= f < |refs'| ==> refs''[f] + extra[f] == refs'[f] + gain[f] + extra'[f]
  }

  /** The counts after mapping: one more for each added page. */
  lemma CountsAfter(m: Machine, k: Fork, lay: Layout, mem: Mem, refs: seq<nat>, extra: multiset<nat>,
                    mem': Mem, refs': seq<nat>, added: seq<nat>, view': seq<Translation>)
    requires ChildSound(m, k, lay, mem) && Counts(m, k, lay, mem, refs, extra)
    requires MapEffect(m, mem, refs, mem', refs', k.child, lay, added, view')
    ensures |refs'| == m.npages
    ensures forall f :: 0 <= f < m.npages ==>
              refs'[f] == k.refs0[f] + Uses(mem, k.child, lay)[f] + multiset(added)[f] + extra[f]
  {
    AddedWereFree(m, k, lay, mem, refs, extra, mem', refs', added, view');
    forall f | 0 <= f < m.npages
      ensures refs'[f] == k.refs0[f] + Uses(mem, k.child, lay)[f] + multiset(added)[f] + extra[f]
    {
      if f in added {
        assert refs[f] == 0 && refs'[f] == 1;
      } else {
        assert f !in multiset(added);
      }
    }
  }

  /** The uses after mapping are still single, and of allocatable pages. */
  lemma UsesStaySingle(m: Machine, uses: multiset<nat>, added: seq<nat>, gain: multiset<nat>, uses': multiset<nat>)
    requires uses' == uses + multiset(added) + gain
    requires forall f :: uses[f] <= 1
    requires forall f :: f in uses ==> m.Allocatable(f)
    requires forall f :: f in added ==> multiset(added)[f] == 1 && uses[f] == 0 && m.Allocatable(f)
    requires NewPages(m, gain, added, uses)
    ensures forall f :: uses'[f] <= 1
    ensures forall f :: f in uses' ==> m.Allocatable(f)
  {
    forall f
      ensures uses'[f] <= 1 && (f in uses' ==> m.Allocatable(f))
    {
      assert uses'[f] == uses[f] + multiset(added)[f] + gain[f];
      assert f in multiset(added) <==> f in added;
    }
  }

  /** A mapping that adds the pages `added` to the table and the user pages `gain` keeps the child sound. */
  lemma SoundAfter(m: Machine, k: Fork, lay: Layout, mem: Mem, refs: seq<nat>, extra: multiset<nat>,
                   mem': Mem, refs': seq<nat>, added: seq<nat>, view': seq<Translation>, gain: multiset<nat>)
    requires ChildSound(m, k, lay, mem) && Counts(m, k, lay, mem, refs, extra)
    requires MapEffect(m, mem, refs, mem', refs', k.child, lay, added, view')
    requires Uses(mem', k.child, lay) == Uses(mem, k.child, lay) + multiset(added) + gain
    requires NewPages(m, gain, added, Uses(mem, k.child, lay))
    ensures ChildSound(m, k, lay, mem')
  {
    AddedWereFree(m, k, lay, mem, refs, extra, mem', refs', added, view');
    UsesStaySingle(m, Uses(mem, k.child, lay), added, gain, Uses(mem', k.child, lay));
    BeyondStays(mem, mem', k.child, lay);
  }

  lemma Settle(refs0: seq<nat>, refs': seq<nat>, refs'': seq<nat>, uses: multiset<nat>, added: multiset<nat>,
               gain: multiset<nat>,
               extra: multiset<nat>, extra': multiset<nat>, uses': multiset<nat>)
    requires |refs0| == |refs'| && uses' == uses + added + gain
    requires forall f :: 0 <= f < |refs0| ==> refs'[f] == refs0[f] + uses[f] + added[f] + extra[f]
    requires Settles(refs', refs'', gain, extra, extra')
    ensures |refs''| == |refs0| && forall f :: 0 <= f < |refs0| ==> refs''[f] == refs0[f] + uses'[f] + extra'[f]
  {
  }

  lemma CountsSettle(m: Machine, k: Fork, lay: Layout, mem: Mem, refs: seq<nat>, extra: multiset<nat>,
                     mem': Mem, refs': seq<nat>, added: seq<nat>, view': seq<Translation>, gain: multiset<nat>,
                     refs'': seq<nat>, extra': multiset<nat>)
    requires ChildSound(m, k, lay, mem) && Counts(m, k, lay, mem, refs, extra)
    requires MapEffect(m, mem, refs, mem', refs', k.child, lay, added, view')
    requires Uses(mem', k.child, lay) == Uses(mem, k.child, lay) + multiset(added) + gain
    requires Settles(refs', refs'', gain, extra, extra')
    ensures Counts(m, k, lay, mem', refs'', extra')
  {
    CountsAfter(m, k, lay, mem, refs, extra, mem', refs', added, view');
    Settle(k.refs0, refs', refs'', Uses(mem, k.child, lay), multiset(added), gain, extra, extra',
           Uses(mem', k.child, lay));
  }

  /** A failed mapping leaves the copy where it was; the table may have grown. */
  lemma MapFailed(m: Machine, k: Fork, lay: Layout, mem: Mem, refs: seq<nat>, v: nat, extra: multiset<nat>,
                  mem': Mem, refs': seq<nat>, added: seq<nat>)
    requires k.Started(m, lay) && v <= lay.memVirtual && Copying(m, k, lay, mem, refs, v, extra)
    requires MapEffect(m, mem, refs, mem', refs', k.child, lay, added, View(mem, k.child, lay.memVirtual))
    ensures Copying(m, k, lay, mem', refs', v, extra)
  {
    var view := View(mem, k.child, lay.memVirtual);
    assert Uses(mem', k.child, lay) == Uses(mem, k.child, lay) + multiset(added) + multiset{};
    SoundAfter(m, k, lay, mem, refs, extra, mem', refs', added, view, multiset{});
    CountsSettle(m, k, lay, mem, refs, extra, mem', refs', added, view, multiset{}, refs', extra);
    CopiesStay(m, k, lay, mem, refs, v, extra, mem', refs', added);
  }

  /** A successful mapping of page `v` to `t'`, after which the counts are settled as `refs''`. */
  lemma MapDone(m: Machine, k: Fork, lay: Layout, mem: Mem, refs: seq<nat>, v: nat, extra: multiset<nat>,
                mem': Mem, refs': seq<nat>, added: seq<nat>, t': Translation, refs'': seq<nat>, extra': multiset<nat>)
    requires k.Started(m, lay) && v < lay.memVirtual && Copying(m, k, lay, mem, refs, v, extra)
    requires MapEffect(m, mem, refs, mem', refs', k.child, lay, added, View(mem, k.child, lay.memVirtual)[v := t'])
    requires Proper(t', v, lay) && CopyOf(k.mem0, k.refs0, mem', k.ParentView(lay)[v], t', v, lay)
    requires NewPages(m, UserGain(t', v, lay), added, Uses(mem, k.child, lay))
    requires Settles(refs', refs'', UserGain(t', v, lay), extra, extra')
    ensures Copying(m, k, lay, mem', refs'', v + 1, extra')
  {
    var view, gain := View(mem, k.child, lay.memVirtual), UserGain(t', v, lay);
    var view' := view[v := t'];
    UsesAfter(mem, mem', k.child, lay, v, t', multiset(added));
    SoundAfter(m, k, lay, mem, refs, extra, mem', refs', added, view', gain);
    CountsSettle(m, k, lay, mem, refs, extra, mem', refs', added, view', gain, refs'', extra');
    CopiesStay(m, k, lay, mem, refs, v, extra, mem', refs', added);
    ProgressMore(k, lay, mem', view, v, t');
  }

  lemma ProgressMore(k: Fork, lay: Layout, mem: Mem, view: seq<Translation>, v: nat, t': Translation)
    requires k.pid < |k.ptable| && v < |view| == lay.memVirtual && Copied(k, lay, mem, view, v)
    requires AllProper(view, lay) && (forall w :: v <= w < lay.memVirtual ==> view[w] == Unmapped)
    requires Proper(t', v, lay) && CopyOf(k.mem0, k.refs0, mem, k.ParentView(lay)[v], t', v, lay)
    ensures Progress(k, lay, mem, view[v := t'], v + 1)
  {
    var view' := view[v := t'];
    forall w | 0 <= w < v + 1
      ensures CopyOf(k.mem0, k.refs0, mem, k.ParentView(lay)[w], view'[w], w, lay)
    {
      if w < v {
        CopiedAt(k, lay, mem, view, v, w);
      }
    }
  }

  // ---------------------------------------------------------------------------------------
  // Beginning and end of a fork

  lemma {:induction false} NoUserFrames(view: seq<Translation>, lo: nat, hi: nat)
    requires hi <= |view| && forall w :: 0 <= w < |view| ==> view[w] == Unmapped
    ensures UserFrames(view, lo, hi) == multiset{}
    decreases hi
  {
    if lo < hi {
      NoUserFrames(view, lo, hi - 1);
    }
  }

  /** A zeroed root page is an empty table. */
  lemma EmptyTable(mem: Mem, root: nat, lay: Layout)
    requires root < |mem| && mem[root] == Filled(ZERO)
    ensures Pages(mem, root, 3) == [root] && Tidy(mem, root) && Beyond(mem, root, lay)
    ensures forall w :: 0 <= w < lay.memVirtual ==> View(mem, root, lay.memVirtual)[w] == Unmapped
    ensures Uses(mem, root, lay) == multiset{root}
  {
    ZeroBelow(mem, root, 3, 0);
    forall q: Path
      ensures TidyAt(mem, root, q)
    {
      assert WordAt(mem, root, q[3]) == ZERO;
    }
    var view := View(mem, root, lay.memVirtual);
    forall w | 0 <= w < lay.memVirtual
      ensures view[w] == Unmapped
    {
      ViewAt(mem, root, lay.memVirtual, w);
      assert WordAt(mem, root, PathOf(w * PAGESIZE)[3]) == ZERO;
    }
    NoUserFrames(view, lay.procStart, lay.memVirtual);
    forall va: nat
      ensures Translate(mem, root, va) == Unmapped
    {
      assert WordAt(mem, root, PathOf(va)[3]) == ZERO;
    }
  }

  lemma BeginSound(m: Machine, k: Fork, lay: Layout, mem: Mem)
    requires |k.mem0| == |k.refs0| == m.npages && m.Allocatable(k.child) && k.refs0[k.child] == 0
    requires mem == k.mem0[k.child := Filled(ZERO)]
    requires Tidy(mem, k.child) && Beyond(mem, k.child, lay) && Pages(mem, k.child, 3) == [k.child]
               && Uses(mem, k.child, lay) == multiset{k.child}
    ensures ChildSound(m, k, lay, mem)
  {
  }

  lemma BeginProgress(k: Fork, lay: Layout, mem: Mem, view: seq<Translation>)
    requires k.pid < |k.ptable| && |view| == lay.memVirtual
    requires forall w :: 0 <= w < lay.memVirtual ==> view[w] == Unmapped
    ensures Progress(k, lay, mem, view, 0)
  {
  }

  /** A fork begins with an empty child table. */
  lemma BeginCopy(m: Machine, k: Fork, lay: Layout, mem: Mem, refs: seq<nat>)
    requires k.Started(m, lay)
    requires mem == k.mem0[k.child := Filled(ZERO)] && refs == k.refs0[k.child := 1]
    ensures Copying(m, k, lay, mem, refs, 0, multiset{})
  {
    EmptyTable(mem, k.child, lay);
    BeginSound(m, k, lay, mem);
    BeginProgress(k, lay, mem, View(mem, k.child, lay.memVirtual));
  }

  lemma {:induction false} UserFrameWitness(view: seq<Translation>, lo: nat, hi: nat, f: nat) returns (w: nat)
    requires hi <= |view| && f in UserFrames(view, lo, hi)
    ensures lo <= w < hi && User(view[w]) && FrameIn(view[w]) == f
    decreases hi
  {
    if f in UserFrame(view[hi - 1]) {
      w := hi - 1;
    } else {
      w := UserFrameWitness(view, lo, hi - 1, f);
    }
  }

  lemma {:induction false} TallyOne(view: seq<Translation>, lo: nat, hi: nat, v: nat, f: nat)
    requires lo <= v < hi <= |view| && CountAt(view[v], f) == 1
    ensures Tally(view, lo, hi, f) >= 1
    decreases hi
  {
    if v < hi - 1 {
      TallyOne(view, lo, hi - 1, v, f);
    }
  }

  lemma {:induction false} TallyTwo(view: seq<Translation>, lo: nat, hi: nat, v: nat, w: nat, f: nat)
    requires lo <= v < w < hi <= |view| && CountAt(view[v], f) == 1 && CountAt(view[w], f) == 1
    ensures Tally(view, lo, hi, f) >= 2
    decreases hi
  {
    if w < hi - 1 {
      TallyTwo(view, lo, hi - 1, v, w, f);
    } else {
      TallyOne(view, lo, hi - 1, v, f);
    }
  }

  /** A frame mapped for the user at two pages counts twice. */
  lemma TwoUserFrames(view: seq<Translation>, lo: nat, hi: nat, v: nat, w: nat, f: nat)
    requires lo <= v < w < hi <= |view| && User(view[v]) && User(view[w]) && FrameIn(view[v]) == f == FrameIn(view[w])
    ensures UserFrames(view, lo, hi)[f] >= 2
  {
    TallyTwo(view, lo, hi, v, w, f);
    TallyIsCount(view, lo, hi, f);
  }

  /** In an address space, distinct user pages have distinct frames. */
  lemma OneUserPage(m: Machine, mem: Mem, root: nat, lay: Layout, v: nat, w: nat)
    requires Space(m, mem, root, lay) && lay.procStart <= v < lay.memVirtual && lay.procStart <= w < lay.memVirtual
    requires var view := View(mem, root, lay.memVirtual);
             User(view[v]) && User(view[w]) && FrameIn(view[v]) == FrameIn(view[w])
    ensures v == w
  {
    var view := View(mem, root, lay.memVirtual);
    assert UserBag(view, lay)[FrameIn(view[v])] <= Uses(mem, root, lay)[FrameIn(view[v])] <= 1;
    if v < w {
      TwoUserFrames(view, lay.procStart, lay.memVirtual, v, w, FrameIn(view[v]));
    } else if w < v {
      TwoUserFrames(view, lay.procStart, lay.memVirtual, w, v, FrameIn(view[v]));
    }
  }

  lemma CursorFrame(mem: Mem, mem': Mem, root: nat, va: nat)
    requires Agree(mem, mem', Pages(mem, root, 3))
    ensures FreshCursor(mem', root, va) == FreshCursor(mem, root, va)
  {
    WalkFrame(mem, mem', root, 3, PathOf(va), ALL_PERM);
  }

  /** The parent's table is not touched by the fork. */
  lemma ParentStays(m: Machine, k: Fork, lay: Layout, mem: Mem, va: nat)
    requires k.Started(m, lay) && KeepsUsed(m, k.mem0, k.refs0, mem)
    ensures var root := k.ptable[k.pid].pagetable;
            && Tidy(mem, root) && View(mem, root, lay.memVirtual) == k.ParentView(lay)
            && FreshCursor(mem, root, va) == FreshCursor(k.mem0, root, va)
  {
    var root := k.ptable[k.pid].pagetable;
    IntactAt(m, k.mem0, k.refs0, k.ptable, lay, k.pid);
    LiveAgree(m, k.mem0, k.refs0, mem, k.ptable, lay, k.pid);
    UsesFrame(k.mem0, mem, root, lay);
    TidyFrame(k.mem0, mem, root);
    CursorFrame(k.mem0, mem, root, va);
  }

  lemma CopyKeepsUsed(m: Machine, k: Fork, lay: Layout, mem: Mem, refs: seq<nat>, v: nat, extra: multiset<nat>)
    requires k.pid < |k.ptable| && Copying(m, k, lay, mem, refs, v, extra)
    ensures KeepsUsed(m, k.mem0, k.refs0, mem)
  {
  }

  /** The child's table is one that `try_map` can extend. */
  lemma ChildRooted(m: Machine, k: Fork, lay: Layout, mem: Mem, refs: seq<nat>, extra: multiset<nat>)
    requires ChildSound(m, k, lay, mem) && Counts(m, k, lay, mem, refs, extra)
    ensures Tidy(mem, k.child) && NoDup(Pages(mem, k.child, 3))
    ensures forall f :: f in Pages(mem, k.child, 3) ==> f < m.npages && refs[f] != 0
  {
    forall f
      ensures multiset(Pages(mem, k.child, 3))[f] <= 1
    {
      assert multiset(Pages(mem, k.child, 3))[f] <= Uses(mem, k.child, lay)[f];
    }
    forall f | f in Pages(mem, k.child, 3)
      ensures f < m.npages && refs[f] != 0
    {
      TablePageUsed(mem, k.child, lay, f);
    }
  }

  lemma TakeSound(m: Machine, k: Fork, lay: Layout, mem: Mem, mem': Mem, f: nat)
    requires ChildSound(m, k, lay, mem) && m.Allocatable(f) && k.refs0[f] == 0
    requires |mem'| == |mem| && forall g :: 0 <= g < |mem| && g != f ==> mem'[g] == mem[g]
    requires Agree(mem, mem', Pages(mem, k.child, 3))
    ensures ChildSound(m, k, lay, mem')
  {
    UsesFrame(mem, mem', k.child, lay);
    TidyFrame(mem, mem', k.child);
    BeyondFrame(mem, mem', k.child, lay);
  }

  lemma TakeCopied(m: Machine, k: Fork, lay: Layout, mem: Mem, refs: seq<nat>, v: nat, extra: multiset<nat>, mem': Mem,
                   f: nat)
    requires k.Started(m, lay) && v <= lay.memVirtual && Copying(m, k, lay, mem, refs, v, extra)
    requires f < m.npages && refs[f] == 0
    requires |mem'| == |mem| && forall g :: 0 <= g < |mem| && g != f ==> mem'[g] == mem[g]
    ensures Copied(k, lay, mem', View(mem, k.child, lay.memVirtual), v)
  {
    var view := View(mem, k.child, lay.memVirtual);
    forall w | 0 <= w < v
      ensures CopyOf(k.mem0, k.refs0, mem', k.ParentView(lay)[w], view[w], w, lay)
    {
      var t, t' := k.ParentView(lay)[w], view[w];
      CopiedAt(k, lay, mem, view, v, w);
      if t.Mapped? && Separate(t, w, lay) {
        ParentProper(m, k, lay, w);
        SeparateIsHigh(t, t', w, lay);
        ChildFrameCounted(m, k, lay, mem, refs, v, extra, w);
      }
      CopyStays(k.mem0, k.refs0, mem, mem', t, t', w, lay);
    }
  }

  lemma TakeCounts(m: Machine, k: Fork, lay: Layout, mem: Mem, refs: seq<nat>, mem': Mem, refs': seq<nat>, f: nat)
    requires Counts(m, k, lay, mem, refs, multiset{}) && Uses(mem', k.child, lay) == Uses(mem, k.child, lay)
    requires f < m.npages && refs[f] == 0 && refs' == refs[f := 1]
    ensures Counts(m, k, lay, mem', refs', multiset{f})
    ensures k.refs0[f] == 0 && Uses(mem', k.child, lay)[f] == 0
  {
  }

  lemma TakeAgrees(m: Machine, k: Fork, lay: Layout, mem: Mem, refs: seq<nat>, mem': Mem, f: nat)
    requires ChildSound(m, k, lay, mem) && Counts(m, k, lay, mem, refs, multiset{})
    requires f < m.npages && refs[f] == 0
    requires |mem'| == |mem| && forall g :: 0 <= g < |mem| && g != f ==> mem'[g] == mem[g]
    ensures Agree(mem, mem', Pages(mem, k.child, 3))
    ensures Uses(mem', k.child, lay) == Uses(mem, k.child, lay)
    ensures View(mem', k.child, lay.memVirtual) == View(mem, k.child, lay.memVirtual)
  {
    ChildRooted(m, k, lay, mem, refs, multiset{});
    UsesFrame(mem, mem', k.child, lay);
  }

  /** A free page may be taken in hand and filled. */
  lemma TakePage(m: Machine, k: Fork, lay: Layout, mem: Mem, refs: seq<nat>, v: nat, mem': Mem, refs': seq<nat>, f: nat)
    requires k.Started(m, lay) && v <= lay.memVirtual && Copying(m, k, lay, mem, refs, v, multiset{})
    requires m.Allocatable(f) && refs[f] == 0 && refs' == refs[f := 1]
    requires |mem'| == |mem| && forall g :: 0 <= g < |mem| && g != f ==> mem'[g] == mem[g]
    ensures Copying(m, k, lay, mem', refs', v, multiset{f})
    ensures Uses(mem', k.child, lay)[f] == 0 && k.refs0[f] == 0
  {
    TakeCopied(m, k, lay, mem, refs, v, multiset{}, mem', f);
    TakeAgrees(m, k, lay, mem, refs, mem', f);
    TakeCounts(m, k, lay, mem, refs, mem', refs', f);
    TakeSound(m, k, lay, mem, mem', f);
  }

  lemma UserOrTable(mem: Mem, root: nat, lay: Layout, f: nat)
    requires f in Uses(mem, root, lay)
    ensures f in Pages(mem, root, 3) || f in UserBag(View(mem, root, lay.memVirtual), lay)
  {
    assert f in multiset(Pages(mem, root, 3)) || f in UserBag(View(mem, root, lay.memVirtual), lay);
  }

  /** Where a page in use by the child came from: it was free before, or it is a read-only page of the parent. */
  lemma ChildUseOrigin(m: Machine, k: Fork, lay: Layout, mem: Mem, refs: seq<nat>, v: nat, extra: multiset<nat>, f: nat)
      returns (w: nat)
    requires k.Started(m, lay) && v <= lay.memVirtual && Copying(m, k, lay, mem, refs, v, extra)
    requires f in Uses(mem, k.child, lay) && f < m.npages && k.refs0[f] != 0
    ensures lay.procStart <= w < v && User(k.ParentView(lay)[w]) && !Writable(k.ParentView(lay)[w])
              && FrameIn(k.ParentView(lay)[w]) == f
  {
    hide Good, Tidy, Beyond, KeepsUsed, Uses, Pages;
    var view := View(mem, k.child, lay.memVirtual);
    UserOrTable(mem, k.child, lay, f);
    w := UserFrameWitness(view, lay.procStart, lay.memVirtual, f);
    assert w < v;
    CopiedAt(k, lay, mem, view, v, w);
    ParentProper(m, k, lay, w);
  }

  /** A read-only page that is about to be shared is not in the child yet. */
  lemma NotSharedYet(m: Machine, k: Fork, lay: Layout, mem: Mem, refs: seq<nat>, v: nat, extra: multiset<nat>)
    requires k.Started(m, lay) && lay.procStart <= v < lay.memVirtual && Copying(m, k, lay, mem, refs, v, extra)
    requires User(k.ParentView(lay)[v])
    ensures var f := FrameIn(k.ParentView(lay)[v]);
            f < m.npages && m.Allocatable(f) && k.refs0[f] != 0 && Uses(mem, k.child, lay)[f] == 0
  {
    var f := FrameIn(k.ParentView(lay)[v]);
    ParentFrame(m, k, lay, v);
    if f in Uses(mem, k.child, lay) {
      var w := ChildUseOrigin(m, k, lay, mem, refs, v, extra, f);
      IntactAt(m, k.mem0, k.refs0, k.ptable, lay, k.pid);
      OneUserPage(m, k.mem0, k.ptable[k.pid].pagetable, lay, v, w);
    }
  }

  /** A user page of the parent is counted. */
  lemma ParentFrame(m: Machine, k: Fork, lay: Layout, v: nat)
    requires k.Started(m, lay) && lay.procStart <= v < lay.memVirtual && User(k.ParentView(lay)[v])
    ensures var f := FrameIn(k.ParentView(lay)[v]);
            f < m.npages == |k.mem0| && m.Allocatable(f) && k.refs0[f] != 0
                && f in Uses(k.mem0, k.ptable[k.pid].pagetable, lay)
  {
    var root := k.ptable[k.pid].pagetable;
    var f := FrameIn(k.ParentView(lay)[v]);
    UserFrameListed(k.ParentView(lay), lay.procStart, lay.memVirtual, v);
    assert f in Uses(k.mem0, root, lay);
    IntactAt(m, k.mem0, k.refs0, k.ptable, lay, k.pid);
    UsesCounted(m, k.mem0, k.refs0, k.ptable, lay, k.pid);
  }

  /** As `CopyOf`, for one address: the child's translation is at the same offset of the same page, or of the copy. */
  ghost predicate AddressCopy(mem0: Mem, refs0: seq<nat>, mem: Mem, t: Translation, t': Translation, va: nat,
                              lay: Layout) {
    if t.Unmapped? then t'.Unmapped?
    else
      && t'.Mapped? && t'.perm == t.perm
      && if Separate(t, va / PAGESIZE, lay) then
           var f, f' := FrameIn(t), FrameIn(t');
           && t.pa % PAGESIZE == t'.pa % PAGESIZE == va % PAGESIZE
           && f < |mem0| && f' < |mem| && f' < |refs0| && refs0[f'] == 0 && mem[f'] == mem0[f]
         else t'.pa == t.pa
  }

  /** Table `root'` in `mem` copies table `root` in `mem0` at every address there is. */
  ghost predicate CopiedEverywhere(mem0: Mem, refs0: seq<nat>, root: nat, mem: Mem, root': nat, lay: Layout) {
    forall va: nat :: va < VA_END ==>
        AddressCopy(mem0, refs0, mem, Translate(mem0, root, va), Translate(mem, root', va), va, lay)
  }

  lemma PageCopyExtends(mem0: Mem, refs0: seq<nat>, mem: Mem, u: Translation, u': Translation, t: Translation,
                        t': Translation, va: nat, lay: Layout)
    requires CopyOf(mem0, refs0, mem, u, u', va / PAGESIZE, lay)
    requires AtOffset(t, u, va % PAGESIZE) && AtOffset(t', u', va % PAGESIZE)
    ensures AddressCopy(mem0, refs0, mem, t, t', va, lay)
  {
    if u.Mapped? {
      PageOffset(u.pa / PAGESIZE, va);
      PageOffset(u'.pa / PAGESIZE, va);
    }
  }

  /** A complete copy of the pages below MEMSIZE_VIRTUAL is a copy of every address. */
  lemma CopyReachesEverywhere(m: Machine, k: Fork, lay: Layout, mem: Mem, refs: seq<nat>)
    requires k.Started(m, lay) && Copying(m, k, lay, mem, refs, lay.memVirtual, multiset{})
    ensures CopiedEverywhere(k.mem0, k.refs0, k.ptable[k.pid].pagetable, mem, k.child, lay)
  {
    var root := k.ptable[k.pid].pagetable;
    IntactAt(m, k.mem0, k.refs0, k.ptable, lay, k.pid);
    forall va: nat | va < VA_END
      ensures AddressCopy(k.mem0, k.refs0, mem, Translate(k.mem0, root, va), Translate(mem, k.child, va), va, lay)
    {
      var v := va / PAGESIZE;
      if v < lay.memVirtual {
        CopiedAt(k, lay, mem, View(mem, k.child, lay.memVirtual), lay.memVirtual, v);
        ViewAt(k.mem0, root, lay.memVirtual, v);
        ViewAt(mem, k.child, lay.memVirtual, v);
        InPage(k.mem0, root, va);
        InPage(mem, k.child, va);
        PageCopyExtends(k.mem0, k.refs0, mem, PageAt(k.mem0, root, v), PageAt(mem, k.child, v),
                        Translate(k.mem0, root, va), Translate(mem, k.child, va), va, lay);
      }
    }
  }

  /** The finished child table is an address space. */
  lemma ChildSpace(m: Machine, k: Fork, lay: Layout, mem: Mem, refs: seq<nat>)
    requires k.Started(m, lay) && Copying(m, k, lay, mem, refs, lay.memVirtual, multiset{})
    ensures Space(m, mem, k.child, lay)
  {
  }

  /** A page that the child can write was free before the fork. */
  lemma ChildWritesOwn(m: Machine, k: Fork, lay: Layout, mem: Mem, refs: seq<nat>, v: nat)
    requires k.Started(m, lay) && Copying(m, k, lay, mem, refs, lay.memVirtual, multiset{})
    requires lay.procStart <= v < lay.memVirtual && Writable(View(mem, k.child, lay.memVirtual)[v])
    ensures var f := FrameIn(View(mem, k.child, lay.memVirtual)[v]);
            f < |refs| && k.refs0[f] == 0 && refs[f] == 1
  {
    var view := View(mem, k.child, lay.memVirtual);
    CopiedAt(k, lay, mem, view, lay.memVirtual, v);
    ParentProper(m, k, lay, v);
    ChildFrameCounted(m, k, lay, mem, refs, lay.memVirtual, multiset{}, v);
  }

  lemma ChildTablesPrivate(m: Machine, k: Fork, lay: Layout, mem: Mem, refs: seq<nat>, f: nat)
    requires ChildSound(m, k, lay, mem) && Counts(m, k, lay, mem, refs, multiset{}) && f in Pages(mem, k.child, 3)
    ensures f < |refs| && refs[f] == 1
  {
    TablePageUsed(mem, k.child, lay, f);
  }

  lemma ChildPrivate(m: Machine, k: Fork, lay: Layout, mem: Mem, refs: seq<nat>)
    requires k.Started(m, lay) && Copying(m, k, lay, mem, refs, lay.memVirtual, multiset{})
    ensures Private(mem, refs, k.child, lay)
  {
    var view := View(mem, k.child, lay.memVirtual);
    forall f | f in Pages(mem, k.child, 3)
      ensures f < |refs| && refs[f] == 1
    {
      ChildTablesPrivate(m, k, lay, mem, refs, f);
    }
    forall v | lay.procStart <= v < lay.memVirtual && Writable(view[v])
      ensures FrameIn(view[v]) < |refs| && refs[FrameIn(view[v])] == 1
    {
      ChildWritesOwn(m, k, lay, mem, refs, v);
    }
  }

  /** A read-only user page is not among the private pages of its own process. */
  lemma ReadOnlyIsNotPrivate(m: Machine, mem: Mem, root: nat, lay: Layout, w: nat)
    requires Space(m, mem, root, lay) && lay.procStart <= w < lay.memVirtual
    requires var t := View(mem, root, lay.memVirtual)[w]; User(t) && !Writable(t)
    ensures !PrivatePage(mem, root, lay, FrameIn(View(mem, root, lay.memVirtual)[w]))
  {
    var view := View(mem, root, lay.memVirtual);
    var f := FrameIn(view[w]);
    UserFrameListed(view, lay.procStart, lay.memVirtual, w);
    assert Uses(mem, root, lay)[f] <= 1;
    assert f !in multiset(Pages(mem, root, 3));
    forall v | lay.procStart <= v < lay.memVirtual && Writable(view[v])
      ensures FrameIn(view[v]) != f
    {
      assert Proper(view[v], v, lay);
      if FrameIn(view[v]) == f {
        OneUserPage(m, mem, root, lay, v, w);
      }
    }
  }

  lemma PrivatePageCounted(m: Machine, mem: Mem, refs: seq<nat>, ptable: seq<Proc>, lay: Layout, j: nat, f: nat)
    requires Good(m, mem, refs, ptable, lay) && Live(ptable, j) && PrivatePage(mem, ptable[j].pagetable, lay, f)
    ensures f < m.npages && refs[f] == 1 && f in Uses(mem, ptable[j].pagetable, lay)
  {
    var root := ptable[j].pagetable;
    var view := View(mem, root, lay.memVirtual);
    IntactAt(m, mem, refs, ptable, lay, j);
    if f in Pages(mem, root, 3) {
      TablePageUsed(mem, root, lay, f);
    } else {
      var v :| lay.procStart <= v < lay.memVirtual && Writable(view[v]) && FrameIn(view[v]) == f;
      assert Proper(view[v], v, lay);
      UserFrameListed(view, lay.procStart, lay.memVirtual, v);
    }
  }

  /** The child uses no page that is private to a live process. */
  lemma ChildLeavesPrivate(m: Machine, k: Fork, lay: Layout, mem: Mem, refs: seq<nat>, j: nat, f: nat)
    requires k.Started(m, lay) && Copying(m, k, lay, mem, refs, lay.memVirtual, multiset{})
    requires Live(k.ptable, j) && f in Uses(mem, k.child, lay)
    ensures !PrivatePage(k.mem0, k.ptable[j].pagetable, lay, f)
  {
    if PrivatePage(k.mem0, k.ptable[j].pagetable, lay, f) {
      PrivatePageCounted(m, k.mem0, k.refs0, k.ptable, lay, j, f);
      var w := ChildUseOrigin(m, k, lay, mem, refs, lay.memVirtual, multiset{}, f);
      ParentFrame(m, k, lay, w);
      if j != k.pid {
        SingleUse(m, k.mem0, k.refs0, k.ptable, lay, j, k.pid, f);
      } else {
        IntactAt(m, k.mem0, k.refs0, k.ptable, lay, j);
        ReadOnlyIsNotPrivate(m, k.mem0, k.ptable[j].pagetable, lay, w);
      }
    }
  }

  lemma PrivatePageFrame(mem0: Mem, mem: Mem, root: nat, lay: Layout, f: nat)
    requires Agree(mem0, mem, Pages(mem0, root, 3)) && !PrivatePage(mem0, root, lay, f)
    ensures !PrivatePage(mem, root, lay, f)
  {
    UsesFrame(mem0, mem, root, lay);
  }

  lemma ChildLeavesAllPrivate(m: Machine, k: Fork, lay: Layout, mem: Mem, refs: seq<nat>)
    requires k.Started(m, lay) && Copying(m, k, lay, mem, refs, lay.memVirtual, multiset{})
    ensures LeavesPrivate(mem, k.ptable, lay, Uses(mem, k.child, lay))
  {
    forall j: nat, f: nat | Live(k.ptable, j) && f in Uses(mem, k.child, lay)
      ensures !PrivatePage(mem, k.ptable[j].pagetable, lay, f)
    {
      ChildLeavesPrivate(m, k, lay, mem, refs, j, f);
      LiveAgree(m, k.mem0, k.refs0, mem, k.ptable, lay, j);
      PrivatePageFrame(k.mem0, mem, k.ptable[j].pagetable, lay, f);
    }
  }

  lemma CountsAreRaised(m: Machine, k: Fork, lay: Layout, mem: Mem, refs: seq<nat>)
    requires Counts(m, k, lay, mem, refs, multiset{})
    ensures Raised(k.refs0, refs, Uses(mem, k.child, lay))
  {
  }

  /** A complete copy may take the free slot `i`: the state is good again. */
  lemma FinishCopy(m: Machine, k: Fork, lay: Layout, mem: Mem, refs: seq<nat>, i: nat, p: Proc)
    requires k.Started(m, lay) && Copying(m, k, lay, mem, refs, lay.memVirtual, multiset{})
    requires 0 < i < |k.ptable| && k.ptable[i].state.Free? && !p.state.Free? && p.pagetable == k.child
    ensures Good(m, mem, refs, k.ptable[i := p], lay)
    ensures Keeps(m, k.mem0, k.refs0, k.ptable, mem, refs, k.ptable[i := p], lay)
  {
    hide Good, Copying, Keeps, LeavesPrivate, Raised, Space, Private;
    assert KeepsUsed(m, k.mem0, k.refs0, mem)
        && Counts(m, k, lay, mem, refs, multiset{}) by { CopyingParts(m, k, lay, mem, refs); }
    GoodFrame(m, k.mem0, k.refs0, mem, k.ptable, lay);
    ChildSpace(m, k, lay, mem, refs);
    ChildPrivate(m, k, lay, mem, refs);
    ChildLeavesAllPrivate(m, k, lay, mem, refs);
    CountsAreRaised(m, k, lay, mem, refs);
    AdmitKeepsGood(m, mem, k.refs0, refs, k.ptable, lay, i, p);
    KeepsTrans(m, k.mem0, k.refs0, k.ptable, mem, k.refs0, k.ptable, mem, refs, k.ptable[i := p], lay);
  }

  /** The counts after a complete copy. */
  lemma CopyRaises(m: Machine, k: Fork, lay: Layout, mem: Mem, refs: seq<nat>)
    requires k.pid < |k.ptable| && Copying(m, k, lay, mem, refs, lay.memVirtual, multiset{})
    ensures Raised(k.refs0, refs, Uses(mem, k.child, lay))
  {
    CountsAreRaised(m, k, lay, mem, refs);
  }

  lemma CopyingParts(m: Machine, k: Fork, lay: Layout, mem: Mem, refs: seq<nat>)
    requires k.pid < |k.ptable| && Copying(m, k, lay, mem, refs, lay.memVirtual, multiset{})
    ensures KeepsUsed(m, k.mem0, k.refs0, mem) && Counts(m, k, lay, mem, refs, multiset{})
  {
  }

  /** A partial child can be released: all it uses is counted. */
  lemma ChildReleasable(m: Machine, k: Fork, lay: Layout, mem: Mem, refs: seq<nat>, v: nat, extra: multiset<nat>)
    requires k.pid < |k.ptable| && Copying(m, k, lay, mem, refs, v, extra)
    ensures KeepsUsed(m, k.mem0, k.refs0, mem) && |refs| == m.npages
    ensures Tidy(mem, k.child) && forall f :: f in Uses(mem, k.child, lay) ==> m.Allocatable(f)
    ensures forall f :: 0 <= f < m.npages ==> Uses(mem, k.child, lay)[f] <= refs[f]
  {
  }

  /** The page that a failed step still holds. */
  ghost function InHand(hand: nat): multiset<nat> {
    if hand == 0 then multiset{} else multiset{hand}
  }

  lemma HandReturned(m: Machine, refs0: seq<nat>, refs: seq<nat>, refs': seq<nat>, hand: nat)
    requires Raised(refs0, refs, InHand(hand))
               && (hand != 0 ==> hand < |refs| && refs[hand] > 0 && refs' == refs[hand := refs[hand] - 1])
    requires hand == 0 ==> refs' == refs
    ensures refs' == refs0
  {
  }

  lemma ReleasedCounts(m: Machine, k: Fork, lay: Layout, mem: Mem, refs: seq<nat>, extra: multiset<nat>,
                       refs': seq<nat>)
    requires Counts(m, k, lay, mem, refs, extra) && Dropped(refs, refs', Uses(mem, k.child, lay))
    ensures Raised(k.refs0, refs', extra)
  {
  }

  /** Releasing an incomplete copy leaves the counts as before the fork, apart from the page in hand. */
  lemma AbandonCopy(m: Machine, k: Fork, lay: Layout, mem: Mem, refs: seq<nat>, v: nat, extra: multiset<nat>,
                    refs': seq<nat>)
    requires k.Started(m, lay) && Copying(m, k, lay, mem, refs, v, extra)
    requires Dropped(refs, refs', Uses(mem, k.child, lay))
    ensures Raised(k.refs0, refs', extra)
    ensures Good(m, mem, k.refs0, k.ptable, lay) && Keeps(m, k.mem0, k.refs0, k.ptable, mem, k.refs0, k.ptable, lay)
    ensures SameTranslations(k.mem0, mem, k.ptable)
  {
    ReleasedCounts(m, k, lay, mem, refs, extra, refs');
    GoodFrame(m, k.mem0, k.refs0, mem, k.ptable, lay);
    TranslationsFrame(m, k.mem0, k.refs0, mem, k.ptable, lay);
  }

  // ---------------------------------------------------------------------------------------
  // The cases of the copying loop

  /** Mapping the parent's own translation, with no page to count: kernel pages, the console, and nothing at all. */
  lemma PlainDone(m: Machine, k: Fork, lay: Layout, mem: Mem, refs: seq<nat>, v: nat, mem': Mem, refs': seq<nat>,
                  added: seq<nat>)
    requires k.Started(m, lay) && v < lay.memVirtual && Copying(m, k, lay, mem, refs, v, multiset{})
    requires MapEffect(m, mem, refs, mem', refs', k.child, lay, added,
                       View(mem, k.child, lay.memVirtual)[v := k.ParentView(lay)[v]])
    requires User(k.ParentView(lay)[v]) ==> v == lay.console
    ensures Copying(m, k, lay, mem', refs', v + 1, multiset{})
  {
    var t := k.ParentView(lay)[v];
    ParentProper(m, k, lay, v);
    assert UserGain(t, v, lay) == multiset{};
    MapDone(m, k, lay, mem, refs, v, multiset{}, mem', refs', added, t, refs', multiset{});
  }

  /** Sharing a read-only page: it is mapped in the child and counted once more. */
  lemma ShareDone(m: Machine, k: Fork, lay: Layout, mem: Mem, refs: seq<nat>, v: nat, mem': Mem, refs': seq<nat>,
                  added: seq<nat>,
                  f: nat, refs'': seq<nat>)
    requires k.Started(m, lay) && v < lay.memVirtual && Copying(m, k, lay, mem, refs, v, multiset{})
    requires MapEffect(m, mem, refs, mem', refs', k.child, lay, added,
                       View(mem, k.child, lay.memVirtual)[v := k.ParentView(lay)[v]])
    requires var t := k.ParentView(lay)[v]; t.Mapped? && !Writable(t) && f == FrameIn(t)
    requires Settles(refs', refs'', multiset{f}, multiset{}, multiset{})
    ensures Copying(m, k, lay, mem', refs'', v + 1, multiset{})
  {
    var t := k.ParentView(lay)[v];
    ParentProper(m, k, lay, v);
    ShareFacts(m, k, lay, mem, refs, v, mem', refs', added);
    GainOne(t, v, lay, f);
    assert CopyOf(k.mem0, k.refs0, mem', t, t, v, lay);
    MapDone(m, k, lay, mem, refs, v, multiset{}, mem', refs', added, t, refs'', multiset{});
  }

  lemma GainOne(t: Translation, v: nat, lay: Layout, f: nat)
    requires lay.procStart <= v && User(t) && FrameIn(t) == f
    ensures UserGain(t, v, lay) == multiset{f}
  {
  }

  lemma CountedOnce(refs: seq<nat>, refs': seq<nat>, f: nat)
    requires f < |refs| && refs' == refs[f := refs[f] + 1]
    ensures Settles(refs, refs', multiset{f}, multiset{}, multiset{})
  {
  }

  lemma SharedNotAdded(m: Machine, k: Fork, lay: Layout, mem: Mem, refs: seq<nat>, mem': Mem, refs': seq<nat>,
                       added: seq<nat>, f: nat)
    requires |mem| == m.npages && Counts(m, k, lay, mem, refs, multiset{})
               && Accounted(mem, refs, mem', refs', k.child, added)
    requires f < m.npages && k.refs0[f] != 0
    ensures f !in added && refs'[f] == refs[f]
  {
  }

  /** Before a page is counted once more it has the count that it had at the start of the fork. */
  lemma ShareFacts(m: Machine, k: Fork, lay: Layout, mem: Mem, refs: seq<nat>, v: nat, mem': Mem, refs': seq<nat>,
                   added: seq<nat>)
    requires k.Started(m, lay) && v < lay.memVirtual && Copying(m, k, lay, mem, refs, v, multiset{})
    requires Accounted(mem, refs, mem', refs', k.child, added)
    requires var t := k.ParentView(lay)[v]; t.Mapped? && !Writable(t)
    ensures lay.procStart <= v && User(k.ParentView(lay)[v])
    ensures var f := FrameIn(k.ParentView(lay)[v]);
            && f < m.npages == |refs'| == |k.refs0| && 0 < refs'[f] == k.refs0[f]
            && m.Allocatable(f) && f !in added && Uses(mem, k.child, lay)[f] == 0
  {
    var f := FrameIn(k.ParentView(lay)[v]);
    ParentProper(m, k, lay, v);
    NotSharedYet(m, k, lay, mem, refs, v, multiset{});
    SharedNotAdded(m, k, lay, mem, refs, mem', refs', added, f);
  }

  /** Copying a writable user page: the page in hand, filled with the parent's bytes, is mapped in the child. */
  lemma PrivateDone(m: Machine, k: Fork, lay: Layout, mem: Mem, refs: seq<nat>, v: nat, mem': Mem, refs': seq<nat>,
                    added: seq<nat>, f: nat)
    requires k.Started(m, lay) && v < lay.memVirtual && Copying(m, k, lay, mem, refs, v, multiset{f})
    requires Separate(k.ParentView(lay)[v], v, lay) && m.Allocatable(f) && Uses(mem, k.child, lay)[f] == 0
    requires FrameIn(k.ParentView(lay)[v]) < |k.mem0| && mem[f] == k.mem0[FrameIn(k.ParentView(lay)[v])]
               && k.refs0[f] == 0
    requires MapEffect(m, mem, refs, mem', refs', k.child, lay, added,
                       View(mem, k.child, lay.memVirtual)[v := Mapped(f * PAGESIZE, k.ParentView(lay)[v].perm)])
    ensures Copying(m, k, lay, mem', refs', v + 1, multiset{})
  {
    var t := k.ParentView(lay)[v];
    var t' := Mapped(f * PAGESIZE, t.perm);
    ParentProper(m, k, lay, v);
    SeparateIsHigh(t, t', v, lay);
    PageNumbers(f, f);
    HandNotAdded(m, k, lay, mem, refs, mem', refs', added, f);
    assert UserGain(t', v, lay) == multiset{f};
    MapDone(m, k, lay, mem, refs, v, multiset{f}, mem', refs', added, t', refs', multiset{});
  }

  lemma HandNotAdded(m: Machine, k: Fork, lay: Layout, mem: Mem, refs: seq<nat>, mem': Mem, refs': seq<nat>,
                     added: seq<nat>, f: nat)
    requires |mem| == m.npages && Counts(m, k, lay, mem, refs, multiset{f})
               && Accounted(mem, refs, mem', refs', k.child, added)
    requires f < m.npages && Uses(mem, k.child, lay)[f] == 0
    ensures f !in added && mem'[f] == mem[f]
  {
    assert refs[f] > 0;
    if f in Pages(mem, k.child, 3) {
      TablePageUsed(mem, k.child, lay, f);
    }
  }
}
