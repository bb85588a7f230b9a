/** Each step of `process_setup` does to memory and counts what its plan says. */
module SetupSteps {
  import opened Paging
  import opened PageTables
  import opened Depths
  import opened Allocator
  import opened VmIters
  import opened FreePages
  import opened Spaces
  import opened Accounts
  import opened Forks
  import opened PageAllocs
  import opened Setups
  import opened SetupPlans

  // ---------------------------------------------------------------------------------------
  // What can go wrong

  /** Page `f` was free before the setup, is counted, and is used by nobody. */
  ghost predicate Leaked(m: Machine, k: Fork, lay: Layout, mem: Mem, refs: seq<nat>, f: nat) {
    && m.Allocatable(f) && f < |k.refs0| && k.refs0[f] == 0 && f < |refs| && refs[f] != 0
    && Uses(mem, k.child, lay)[f] == 0
  }

  /** Page 0 is mapped for the user at page `v`. */
  ghost predicate ZeroMapped(view: seq<Translation>, lay: Layout, v: nat) {
    lay.procStart <= v < |view| && User(view[v]) && FrameIn(view[v]) == 0
  }

  /** A page other than the one in hand is lost; or memory is full, nothing is in hand, and page 0 is mapped for the
      user. */
  ghost predicate Spoiled(m: Machine, k: Fork, lay: Layout, mem: Mem, refs: seq<nat>, hand: nat) {
    || (exists f: nat :: f != hand && Leaked(m, k, lay, mem, refs, f))
    || (hand == 0 && AllUsed(m, refs) && exists v: nat :: ZeroMapped(View(mem, k.child, lay.memVirtual), lay, v))
  }

  lemma UsesOthers(mem: Mem, mem': Mem, root: nat, lay: Layout, v: nat, t: Translation, added: multiset<nat>, f: nat)
    requires v < lay.memVirtual && multiset(Pages(mem', root, 3)) == multiset(Pages(mem, root, 3)) + added
    requires View(mem', root, lay.memVirtual) == View(mem, root, lay.memVirtual)[v := t]
    requires added[f] == 0 && (lay.procStart <= v ==> UserFrame(t)[f] == 0)
    ensures Uses(mem', root, lay)[f] <= Uses(mem, root, lay)[f]
  {
    var view, view' := View(mem, root, lay.memVirtual), View(mem', root, lay.memVirtual);
    if lay.procStart <= v {
      UserFramesUpdateAt(view, view', lay.procStart, lay.memVirtual, v, t, f);
    } else {
      UserFramesUntouched(view, view', lay.procStart, lay.memVirtual, v, t);
    }
  }

  /** A lost page stays lost: what is mapped later is another page. */
  lemma LeakStays(m: Machine, k: Fork, lay: Layout, mem: Mem, refs: seq<nat>, mem': Mem, refs': seq<nat>,
                  added: seq<nat>, v: nat, t: Translation, f: nat)
    requires v < lay.memVirtual && Leaked(m, k, lay, mem, refs, f)
    requires MapEffect(m, mem, refs, mem', refs', k.child, lay, added, View(mem, k.child, lay.memVirtual)[v := t])
    requires lay.procStart <= v ==> UserFrame(t)[f] == 0
    ensures Leaked(m, k, lay, mem', refs', f)
  {
    assert f !in added;
    assert f !in multiset(added);
    UsesOthers(mem, mem', k.child, lay, v, t, multiset(added), f);
  }

  /** The translation of page `v` after an attempt to map it: as before, or the page in hand. */
  ghost predicate Tried(view: seq<Translation>, lay: Layout, v: nat, t: Translation, hand: nat) {
    && v < |view|
    && (t == view[v] || (t.Mapped? && (lay.procStart <= v ==> User(t) && FrameIn(t) == hand)))
  }

  lemma SpoiledStays(m: Machine, k: Fork, lay: Layout, mem: Mem, refs: seq<nat>, mem': Mem, refs': seq<nat>,
                     added: seq<nat>, v: nat, t: Translation, hand: nat)
    requires v < lay.memVirtual && Spoiled(m, k, lay, mem, refs, hand)
    requires MapEffect(m, mem, refs, mem', refs', k.child, lay, added, View(mem, k.child, lay.memVirtual)[v := t])
    requires Tried(View(mem, k.child, lay.memVirtual), lay, v, t, hand)
    ensures Spoiled(m, k, lay, mem', refs', 0)
  {
    var view := View(mem, k.child, lay.memVirtual);
    if f: nat :| f != hand && Leaked(m, k, lay, mem, refs, f) {
      if t == view[v] && lay.procStart <= v {
        NotUsedNotMapped(view, lay, mem, k.child, v, f);
      }
      LeakStays(m, k, lay, mem, refs, mem', refs', added, v, t, f);
      assert f != 0;
    } else {
      var w: nat :| ZeroMapped(view, lay, w);
      StillUsed(m, mem, refs, mem', refs', k.child, added);
      assert ZeroMapped(view[v := t], lay, w);
    }
  }

  lemma NotUsedNotMapped(view: seq<Translation>, lay: Layout, mem: Mem, root: nat, v: nat, f: nat)
    requires view == View(mem, root, lay.memVirtual) && lay.procStart <= v < lay.memVirtual
               && Uses(mem, root, lay)[f] == 0
    ensures UserFrame(view[v])[f] == 0
  {
    if User(view[v]) && FrameIn(view[v]) == f {
      UserFrameListed(view, lay.procStart, lay.memVirtual, v);
    }
  }

  /** A page taken in hand spoils nothing and repairs nothing. */
  lemma SpoiledTakes(m: Machine, k: Fork, lay: Layout, mem: Mem, refs: seq<nat>, mem': Mem, f: nat)
    requires Spoiled(m, k, lay, mem, refs, 0) && m.Allocatable(f) && f < |refs| && refs[f] == 0
    requires Agree(mem, mem', Pages(mem, k.child, 3))
    ensures Spoiled(m, k, lay, mem', refs[f := 1], f)
  {
    UsesFrame(mem, mem', k.child, lay);
    assert !AllUsed(m, refs);
    var g: nat :| g != 0 && Leaked(m, k, lay, mem, refs, g);
    assert Leaked(m, k, lay, mem', refs[f := 1], g);
  }

  /** With the new process in its slot, the accounts are broken. */
  lemma SpoiledIsBad(m: Machine, k: Fork, lay: Layout, mem: Mem, refs: seq<nat>, i: nat, p: Proc)
    requires Good(m, k.mem0, k.refs0, k.ptable, lay) && KeepsUsed(m, k.mem0, k.refs0, mem)
               && Spoiled(m, k, lay, mem, refs, 0)
    requires 0 < i < |k.ptable| && k.ptable[i].state.Free? && !p.state.Free? && p.pagetable == k.child
    ensures !InOrder(m, mem, refs, k.ptable[i := p], lay)
  {
    var ptable' := k.ptable[i := p];
    if InOrder(m, mem, refs, ptable', lay) {
      assert Live(ptable', i);
      IntactAt(m, mem, refs, ptable', lay, i);
      if f: nat :| f != 0 && Leaked(m, k, lay, mem, refs, f) {
        LeakedUncounted(m, k, lay, mem, refs, i, p, f);
      } else {
        var v: nat :| ZeroMapped(View(mem, k.child, lay.memVirtual), lay, v);
        ZeroIsUsed(mem, k.child, lay, v);
      }
    }
  }

  lemma ZeroIsUsed(mem: Mem, root: nat, lay: Layout, v: nat)
    requires ZeroMapped(View(mem, root, lay.memVirtual), lay, v)
    ensures 0 in Uses(mem, root, lay)
  {
    UserFrameListed(View(mem, root, lay.memVirtual), lay.procStart, lay.memVirtual, v);
  }

  lemma LeakedUncounted(m: Machine, k: Fork, lay: Layout, mem: Mem, refs: seq<nat>, i: nat, p: Proc, f: nat)
    requires Good(m, k.mem0, k.refs0, k.ptable, lay) && KeepsUsed(m, k.mem0, k.refs0, mem)
               && Leaked(m, k, lay, mem, refs, f)
    requires i < |k.ptable| && k.ptable[i].state.Free? && !p.state.Free? && p.pagetable == k.child
    ensures !Exact(m, mem, refs, k.ptable[i := p], lay)
  {
    GoodFrame(m, k.mem0, k.refs0, mem, k.ptable, lay);
    OwnedUpdate(mem, k.ptable, lay, i, p);
    var uses := Uses(mem, k.child, lay);
    assert (Owned(mem, k.ptable[i := p], lay) + multiset{})[f] == (Owned(mem, k.ptable, lay) + uses)[f];
  }

  // ---------------------------------------------------------------------------------------
  // Where the setup stands

  /** Pages that are not asked for yet are not mapped. */
  ghost predicate Blank(view: seq<Translation>, low: seq<Translation>, requests: seq<Request>) {
    forall v :: |low| <= v < |view| && !Requested(requests, v) ==> view[v] == Unmapped
  }

  /** Something that was asked for is not mapped. */
  ghost predicate Lacking(view: seq<Translation>, low: seq<Translation>, requests: seq<Request>) {
    || (exists v :: 0 <= v < |low| && v < |view| && view[v] != low[v])
    || (exists i :: 0 <= i < |requests| && !Granted(view, requests[i]))
  }

  lemma LackingIsUnplanned(view: seq<Translation>, low: seq<Translation>, requests: seq<Request>, lay: Layout)
    requires Lacking(view, low, requests)
    ensures !Planned(view, low, requests, lay)
  {
  }

  lemma LackingStays(view: seq<Translation>, low: seq<Translation>, requests: seq<Request>, t: Translation,
                     u: Translation)
    requires Lacking(view, low, requests) && |low| < |view| && forall i :: 0 <= i < |requests| ==>
               requests[i].page != |low|
    ensures Lacking(view[|low| := t], low + [u], requests)
  {
    if v :| 0 <= v < |low| && v < |view| && view[v] != low[v] {
      assert view[|low| := t][v] != (low + [u])[v];
    } else {
      var i :| 0 <= i < |requests| && !Granted(view, requests[i]);
      assert !Granted(view[|low| := t], requests[i]);
    }
  }

  lemma LackingMore(view: seq<Translation>, low: seq<Translation>, requests: seq<Request>, r: Request)
    requires Lacking(view, low, requests) || !Granted(view, r)
    ensures Lacking(view, low, requests + [r])
  {
    var all := requests + [r];
    if !Granted(view, r) {
      assert !Granted(view, all[|requests|]);
    } else if i :| 0 <= i < |requests| && !Granted(view, requests[i]) {
      assert !Granted(view, all[i]);
    }
  }

  /** The accounts are kept, the tables are those of the plan, and the view is the planned one or lacks something. */
  ghost predicate Sound(m: Machine, k: Fork, lay: Layout, mem: Mem, refs: seq<nat>, low: seq<Translation>,
                        requests: seq<Request>, p: Plan, extra: multiset<nat>) {
    var view := View(mem, k.child, lay.memVirtual);
    && Building(m, k, lay, mem, refs, extra)
    && LeavesMirror(mem, k.child, p.tables) && Blank(view, low, requests)
    && if p.whole then Mirrors(mem, k.child, p.tables)
        && Planned(view, low, requests, lay) else Lacking(view, low, requests)
  }

  ghost predicate SetupState(m: Machine, k: Fork, lay: Layout, mem: Mem, refs: seq<nat>, low: seq<Translation>,
                             requests: seq<Request>, p: Plan) {
    && Raw(m, k, mem, refs)
    && if p.clean then
         && |FreeSet(m, refs)| == p.free && (!p.whole ==> p.free == 0)
         && Sound(m, k, lay, mem, refs, low, requests, p, multiset{})
       else !p.whole && Spoiled(m, k, lay, mem, refs, 0)
  }

  /** As `SetupState`, with the result `pa` of `kalloc` in hand. */
  ghost predicate HandState(m: Machine, k: Fork, lay: Layout, mem: Mem, refs: seq<nat>, low: seq<Translation>,
                            requests: seq<Request>, p: Plan, pa: nat) {
    && Raw(m, k, mem, refs) && (pa == 0 ==> AllUsed(m, refs))
    && if !p.clean then !p.whole && Spoiled(m, k, lay, mem, refs, pa)
       else if pa == 0 then p.free == 0 && Sound(m, k, lay, mem, refs, low, requests, p, multiset{})
       else
         && p.whole && |FreeSet(m, refs)| + 1 == p.free && Sound(m, k, lay, mem, refs, low, requests, p, multiset{pa})
         && m.Allocatable(pa) && pa < |k.refs0| && k.refs0[pa] == 0 && Uses(mem, k.child, lay)[pa] == 0 && pa < |refs|
             && refs[pa] != 0
  }

  lemma BeginState(m: Machine, k: Fork, lay: Layout, mem: Mem, refs: seq<nat>)
    requires |k.mem0| == |k.refs0| == m.npages && m.Allocatable(k.child) && k.refs0[k.child] == 0
    requires mem == k.mem0[k.child := Filled(ZERO)] && refs == k.refs0[k.child := 1]
    ensures |FreeSet(m, k.refs0)| > 0 && SetupState(m, k, lay, mem, refs, [], [], Begun(|FreeSet(m, k.refs0)|))
  {
    hide Building, Raw, FreeSet, Mirrors, LeavesMirror;
    BeginBuilding(m, k, lay, mem, refs);
    FreeLess(m, k.refs0, k.child);
    MirrorsEmpty(mem, k.child);
    MirrorsLeaves(mem, k.child, {});
  }

  // ---------------------------------------------------------------------------------------
  // Steps that find memory as planned

  /** A mapping that fails leaves the accounts kept: the table may have grown. */
  lemma BuildFails(m: Machine, k: Fork, lay: Layout, mem: Mem, refs: seq<nat>, mem': Mem, refs': seq<nat>,
                   added: seq<nat>)
    requires Building(m, k, lay, mem, refs, multiset{})
    requires MapEffect(m, mem, refs, mem', refs', k.child, lay, added, View(mem, k.child, lay.memVirtual))
    ensures Building(m, k, lay, mem', refs', multiset{})
  {
    var view := View(mem, k.child, lay.memVirtual);
    assert Uses(mem', k.child, lay) == Uses(mem, k.child, lay) + multiset(added) + multiset{};
    SoundAfter(m, k, lay, mem, refs, multiset{}, mem', refs', added, view, multiset{});
    CountsSettle(m, k, lay, mem, refs, multiset{}, mem', refs', added, view, multiset{}, refs', multiset{});
    NewStays(m, k, lay, mem, refs, multiset{}, mem', refs', added, view, multiset{});
  }

  /** The free pages after an attempt to map. */
  lemma FreeAfterMap(m: Machine, mem: Mem, refs: seq<nat>, mem': Mem, refs': seq<nat>, root: nat, lay: Layout,
                     added: seq<nat>, view': seq<Translation>)
    requires MapEffect(m, mem, refs, mem', refs', root, lay, added, view')
    ensures |FreeSet(m, refs)| == |FreeSet(m, refs')| + |added|
    ensures AllUsed(m, refs') ==> |FreeSet(m, refs')| == 0
  {
    FreeAfter(m, mem, refs, mem', refs', root, added);
    if AllUsed(m, refs') {
      NoneFree(m, refs');
    }
  }

  lemma AllUsedIff(m: Machine, refs: seq<nat>)
    ensures AllUsed(m, refs) <==> |FreeSet(m, refs)| == 0
  {
    if |FreeSet(m, refs)| == 0 {
      forall f | 0 <= f < |refs| && m.Allocatable(f)
        ensures refs[f] != 0
      {
        assert f !in FreeSet(m, refs);
      }
    } else {
      var f :| f in FreeSet(m, refs);
      assert refs[f] == 0;
    }
  }

  lemma LowBlank(view: seq<Translation>, low: seq<Translation>, t: Translation, u: Translation)
    requires Blank(view, low, []) && |low| < |view|
    ensures view[|low|] == Unmapped && Blank(view[|low| := t], low + [u], []) && Blank(view, low + [u], [])
  {
    assert !Requested([], |low|);
  }

  /** A low page is mapped while all goes well. */
  lemma LowMapped(m: Machine, k: Fork, lay: Layout, mem: Mem, refs: seq<nat>, low: seq<Translation>, p: Plan,
                  t: Translation,
                  mem': Mem, refs': seq<nat>, added: seq<nat>, perm: Flags)
    requires lay.Ok() && p.clean && SetupState(m, k, lay, mem, refs, low, [], p) && |low| < lay.procStart && t.Mapped?
               && LowPage(t, |low|, lay)
    requires MapEffect(m, mem, refs, mem', refs', k.child, lay, added, View(mem, k.child, lay.memVirtual)[|low| := t])
    requires perm != NONE && Deepened(mem, mem', k.child, |low| * PAGESIZE, |added|, perm, true)
    ensures SetupState(m, k, lay, mem', refs', low + [t], [], AfterLow(p, |low|))
  {
    hide Building, Mirrors, LeavesMirror, Extended, SameLeaves, Level, Missing, FreeSet, HasLeaf, MapEffect, Raw, Touch;
    var view, va := View(mem, k.child, lay.memVirtual), |low| * PAGESIZE;
    PageIsAddress(lay, |low|);
    RawAfter(m, k, lay, mem, refs, mem', refs', added, view[|low| := t]);
    FreeAfterMap(m, mem, refs, mem', refs', k.child, lay, added, view[|low| := t]);
    LowBlank(view, low, t, t);
    LowBuilt(m, k, lay, mem, refs, |low|, t, mem', refs', added);
    EffectView(m, mem, refs, mem', refs', k.child, lay, added, view[|low| := t]);
    if p.whole {
      MissingIsLevel(mem, k.child, p.tables, va);
      MirrorsMore(mem, mem', k.child, p.tables, va);
      MirrorsLeaves(mem', k.child, p.tables + Touch(va));
      PlanLow(view, low, t, lay);
    } else {
      CompleteKeepsLeaves(mem, mem', k.child, va);
      LeavesSame(mem, mem', k.child, p.tables);
      LackingStays(view, low, [], t, t);
    }
  }

  lemma EffectView(m: Machine, mem: Mem, refs: seq<nat>, mem': Mem, refs': seq<nat>, root: nat, lay: Layout,
                   added: seq<nat>, view': seq<Translation>)
    requires MapEffect(m, mem, refs, mem', refs', root, lay, added, view')
    ensures View(mem', root, lay.memVirtual) == view' && Accounted(mem, refs, mem', refs', root, added)
  {
  }

  lemma LowBuilt(m: Machine, k: Fork, lay: Layout, mem: Mem, refs: seq<nat>, v: nat, t: Translation, mem': Mem,
                 refs': seq<nat>, added: seq<nat>)
    requires lay.Ok() && v < lay.procStart && LowPage(t, v, lay) && Building(m, k, lay, mem, refs, multiset{})
    requires View(mem, k.child, lay.memVirtual)[v] == Unmapped
    requires MapEffect(m, mem, refs, mem', refs', k.child, lay, added, View(mem, k.child, lay.memVirtual)[v := t])
    ensures Building(m, k, lay, mem', refs', multiset{})
  {
    LowGain(t, v, lay);
    assert AllNew(k.refs0, multiset{}) && NewPages(m, multiset{}, added, Uses(mem, k.child, lay));
    BuildMap(m, k, lay, mem, refs, multiset{}, v, t, mem', refs', added);
  }

  /** A low page cannot be mapped. */
  lemma LowFailed(m: Machine, k: Fork, lay: Layout, mem: Mem, refs: seq<nat>, low: seq<Translation>, p: Plan,
                  t: Translation,
                  mem': Mem, refs': seq<nat>, added: seq<nat>, perm: Flags)
    requires lay.Ok() && p.clean && SetupState(m, k, lay, mem, refs, low, [], p) && |low| < lay.procStart && t.Mapped?
    requires MapEffect(m, mem, refs, mem', refs', k.child, lay, added, View(mem, k.child, lay.memVirtual))
               && AllUsed(m, refs')
    requires perm != NONE && Deepened(mem, mem', k.child, |low| * PAGESIZE, |added|, perm, false)
    ensures SetupState(m, k, lay, mem', refs', low + [t], [], AfterLow(p, |low|))
  {
    hide Building, Mirrors, LeavesMirror, Extended, SameLeaves, Level, Missing, FreeSet, HasLeaf, MapEffect, Raw, Touch;
    var view := View(mem, k.child, lay.memVirtual);
    PageIsAddress(lay, |low|);
    RawAfter(m, k, lay, mem, refs, mem', refs', added, view);
    FreeAfterMap(m, mem, refs, mem', refs', k.child, lay, added, view);
    LowBlank(view, low, t, t);
    BuildFails(m, k, lay, mem, refs, mem', refs', added);
    EffectView(m, mem, refs, mem', refs', k.child, lay, added, view);
    LeavesSame(mem, mem', k.child, p.tables);
    if p.whole {
      MissingIsLevel(mem, k.child, p.tables, |low| * PAGESIZE);
    }
    assert view[|low|] != (low + [t])[|low|];
  }

  /** After `try_map` for a low page, whatever came before. */
  lemma LowDone(m: Machine, k: Fork, lay: Layout, mem: Mem, refs: seq<nat>, low: seq<Translation>, p: Plan,
                t: Translation,
                mem': Mem, refs': seq<nat>, added: seq<nat>, perm: Flags, mapped: bool)
    requires lay.Ok() && SetupState(m, k, lay, mem, refs, low, [], p) && |low| < lay.procStart && t.Mapped?
               && LowPage(t, |low|, lay)
    requires var view := View(mem, k.child, lay.memVirtual);
             MapEffect(m, mem, refs, mem', refs', k.child, lay, added, if mapped then view[|low| := t] else view)
    requires perm != NONE && Deepened(mem, mem', k.child, |low| * PAGESIZE, |added|, perm, mapped)
               && (!mapped ==> AllUsed(m, refs'))
    ensures SetupState(m, k, lay, mem', refs', low + [t], [], AfterLow(p, |low|))
  {
    var view := View(mem, k.child, lay.memVirtual);
    hide Building, Mirrors, LeavesMirror, Deepened, MapEffect, Raw, Sound, Spoiled, FreeSet, Missing, Touch;
    if !p.clean {
      var t' := if mapped then t else view[|low|];
      assert view[|low| := view[|low|]] == view;
      RawAfter(m, k, lay, mem, refs, mem', refs', added, view[|low| := t']);
      SpoiledStays(m, k, lay, mem, refs, mem', refs', added, |low|, t', 0);
    } else if mapped {
      LowMapped(m, k, lay, mem, refs, low, p, t, mem', refs', added, perm);
    } else {
      LowFailed(m, k, lay, mem, refs, low, p, t, mem', refs', added, perm);
    }
  }

  lemma LowSkip(m: Machine, k: Fork, lay: Layout, mem: Mem, refs: seq<nat>, low: seq<Translation>, p: Plan)
    requires SetupState(m, k, lay, mem, refs, low, [], p) && |low| < lay.memVirtual
    ensures SetupState(m, k, lay, mem, refs, low + [Unmapped], [], p)
  {
    hide Building, Mirrors, LeavesMirror, Raw, Spoiled, FreeSet;
    if p.clean {
      var view := View(mem, k.child, lay.memVirtual);
      LowBlank(view, low, Unmapped, Unmapped);
      assert view[|low| := Unmapped] == view;
      if p.whole {
        PlanLow(view, low, Unmapped, lay);
      } else {
        LackingStays(view, low, [], Unmapped, Unmapped);
      }
    }
  }

  // ---------------------------------------------------------------------------------------
  // Requests

  /** A page in hand and filled changes nothing in the new table. */
  lemma TakenKeeps(m: Machine, k: Fork, lay: Layout, mem: Mem, refs: seq<nat>, low: seq<Translation>,
                   requests: seq<Request>, p: Plan, mem': Mem, pa: nat)
    requires Raw(m, k, mem, refs) && Sound(m, k, lay, mem, refs, low, requests, p, multiset{})
    requires m.Allocatable(pa) && pa < |refs| && refs[pa] == 0
    requires |mem'| == |mem| && forall g :: 0 <= g < |mem| && g != pa ==> mem'[g] == mem[g]
    ensures Sound(m, k, lay, mem', refs[pa := 1], low, requests, p, multiset{pa})
    ensures k.refs0[pa] == 0 && Uses(mem', k.child, lay)[pa] == 0
  {
    RawTake(m, k, lay, mem, refs, mem', refs[pa := 1], pa);
    BuildTake(m, k, lay, mem, refs, mem', refs[pa := 1], pa);
    RawAgrees(m, k, mem, refs, mem', pa);
    LevelsFrame(mem, mem', k.child);
    hide Building, Raw, Mirrors, LeavesMirror, SameLevels, SameLeaves;
    SameLevelsLeaves(mem, mem', k.child);
    LeavesSame(mem, mem', k.child, p.tables);
    if p.whole {
      MirrorsSame(mem, mem', k.child, p.tables);
    }
  }

  lemma RawAgrees(m: Machine, k: Fork, mem: Mem, refs: seq<nat>, mem': Mem, pa: nat)
    requires Raw(m, k, mem, refs) && pa < |refs| && refs[pa] == 0
    requires |mem'| == |mem| && forall g :: 0 <= g < |mem| && g != pa ==> mem'[g] == mem[g]
    ensures Agree(mem, mem', Pages(mem, k.child, 3))
  {
  }

  /** After `kalloc` for a requested page. */
  lemma UserTaken(m: Machine, k: Fork, lay: Layout, mem: Mem, refs: seq<nat>, low: seq<Translation>,
                  requests: seq<Request>, p: Plan,
                  mem': Mem, refs': seq<nat>, pa: nat)
    requires SetupState(m, k, lay, mem, refs, low, requests, p)
    requires pa == 0 ==> mem' == mem && refs' == refs && AllUsed(m, refs)
    requires pa != 0 ==> m.Allocatable(pa) && pa < |refs| && refs[pa] == 0 && refs' == refs[pa := 1] && |mem'| == |mem|
                         && forall g :: 0 <= g < |mem| && g != pa ==> mem'[g] == mem[g]
    ensures HandState(m, k, lay, mem', refs', low, requests, p, pa)
    ensures Agree(mem, mem', Pages(mem, k.child, 3))
  {
    hide Building, Mirrors, LeavesMirror, Spoiled, Blank, Lacking, Planned, Sound;
    if pa != 0 {
      RawTake(m, k, lay, mem, refs, mem', refs', pa);
      RawAgrees(m, k, mem, refs, mem', pa);
      FreeLess(m, refs, pa);
      hide Raw;
      if p.clean {
        TakenKeeps(m, k, lay, mem, refs, low, requests, p, mem', pa);
      } else {
        SpoiledTakes(m, k, lay, mem, refs, mem', pa);
      }
    } else {
      NoneFree(m, refs);
    }
  }

  lemma RequestBlank(view: seq<Translation>, low: seq<Translation>, requests: seq<Request>, r: Request, t: Translation)
    requires Blank(view, low, requests) && r.page < |view|
    ensures Blank(view, low, requests + [r]) && Blank(view[r.page := t], low, requests + [r])
  {
    var all := requests + [r];
    forall v | |low| <= v < |view| && !Requested(all, v)
      ensures view[v] == Unmapped && v != r.page
    {
      assert all[|requests|].page == r.page;
      assert forall i :: 0 <= i < |requests| ==> all[i].page == requests[i].page;
    }
  }

  /** The translation that a request gets: the page in hand, which may be page 0. */
  ghost function RequestMapping(pa: nat, r: Request): Translation {
    Mapped(pa * PAGESIZE, UserPerm(r.writable))
  }

  lemma RequestFrame(pa: nat, r: Request)
    ensures var t := RequestMapping(pa, r); t.Mapped? && User(t) && FrameIn(t) == pa && t.perm == UserPerm(r.writable)
    ensures UserFrame(RequestMapping(pa, r)) == multiset{pa}
  {
    PageNumbers(pa, pa);
  }

  /** Memory is full. If all tables of the page exist, page 0 is mapped for the user. */
  lemma NullMapped(m: Machine, k: Fork, lay: Layout, mem: Mem, refs: seq<nat>, mem': Mem, refs': seq<nat>,
                   added: seq<nat>, r: Request)
    requires Raw(m, k, mem, refs) && AllUsed(m, refs) && lay.procStart <= r.page < lay.memVirtual
    requires MapEffect(m, mem, refs, mem', refs', k.child, lay, added,
                       View(mem, k.child, lay.memVirtual)[r.page := RequestMapping(0, r)])
    ensures Spoiled(m, k, lay, mem', refs', 0)
  {
    RequestFrame(0, r);
    StillUsed(m, mem, refs, mem', refs', k.child, added);
    assert ZeroMapped(View(mem', k.child, lay.memVirtual), lay, r.page);
  }

  /** Memory is full, and tables of the page are missing: nothing happens. */
  lemma NullFailed(m: Machine, k: Fork, lay: Layout, mem: Mem, refs: seq<nat>, low: seq<Translation>,
                   requests: seq<Request>, p: Plan, r: Request,
                   mem': Mem, refs': seq<nat>, added: seq<nat>)
    requires lay.Ok() && p.clean && HandState(m, k, lay, mem, refs, low, requests, p, 0) && r.page < lay.memVirtual
    requires MapEffect(m, mem, refs, mem', refs', k.child, lay, added, View(mem, k.child, lay.memVirtual))
               && AllUsed(m, refs')
    requires Deepened(mem, mem', k.child, r.page * PAGESIZE, |added|, UserPerm(r.writable), false)
    ensures !HasLeaf(p.tables, r.page * PAGESIZE)
    ensures SetupState(m, k, lay, mem', refs', low, requests + [r], p.(whole := false))
  {
    hide Mirrors, LeavesMirror, Extended, SameLeaves, Level, FreeSet, MapEffect, Planned, ChildSound, Counts, AllNew,
         AllProper;
    var view := View(mem, k.child, lay.memVirtual);
    PageIsAddress(lay, r.page);
    LeafAt(mem, k.child, p.tables, r.page * PAGESIZE);
    TidyOfRaw(m, k, mem, refs);
    hide Raw;
    DeepIsUnmapped(mem, k.child, lay.memVirtual, r.page);
    RawAfter(m, k, lay, mem, refs, mem', refs', added, view);
    NoneFree(m, refs');
    EffectView(m, mem, refs, mem', refs', k.child, lay, added, view);
    BuildFails(m, k, lay, mem, refs, mem', refs', added);
    LeavesSame(mem, mem', k.child, p.tables);
    RequestBlank(view, low, requests, r, Unmapped);
    assert !Granted(view, r);
    LackingMore(view, low, requests, r);
  }

  lemma LeafAt(mem: Mem, root: nat, tables: set<Block>, va: nat)
    requires LeavesMirror(mem, root, tables) && Address(va)
    ensures HasLeaf(tables, va) <==> Level(mem, root, va) == 0
  {
  }

  lemma TidyOfRaw(m: Machine, k: Fork, mem: Mem, refs: seq<nat>)
    requires Raw(m, k, mem, refs)
    ensures Tidy(mem, k.child)
  {
  }

  /** With memory full from the start, a mapping succeeds only where no table is missing. */
  lemma NoTablesTaken(m: Machine, mem: Mem, refs: seq<nat>, mem': Mem, refs': seq<nat>, root: nat, lay: Layout,
                      added: seq<nat>, view': seq<Translation>)
    requires MapEffect(m, mem, refs, mem', refs', root, lay, added, view') && AllUsed(m, refs)
    ensures added == []
  {
    NoneFree(m, refs);
    FreeAfterMap(m, mem, refs, mem', refs', root, lay, added, view');
  }

  /** The page in hand is mapped at a page that was not requested before. */
  lemma RequestMapped(m: Machine, k: Fork, lay: Layout, mem: Mem, refs: seq<nat>, low: seq<Translation>,
                      requests: seq<Request>, p: Plan, pa: nat, r: Request,
                      mem': Mem, refs': seq<nat>, added: seq<nat>)
    requires lay.Ok() && p.clean && pa != 0 && HandState(m, k, lay, mem, refs, low, requests, p, pa)
    requires |low| == lay.procStart <= r.page < lay.memVirtual && !Requested(requests, r.page)
    requires MapEffect(m, mem, refs, mem', refs', k.child, lay, added,
                       View(mem, k.child, lay.memVirtual)[r.page := RequestMapping(pa, r)])
    requires Deepened(mem, mem', k.child, r.page * PAGESIZE, |added|, UserPerm(r.writable), true)
    ensures SetupState(m, k, lay, mem', refs', low, requests + [r], AfterRequest(p, r.page, false))
  {
    hide Building, Mirrors, LeavesMirror, Extended, SameLeaves, Level, Missing, FreeSet, HasLeaf, MapEffect, Raw, Touch,
         Uses;
    var view, t, va := View(mem, k.child, lay.memVirtual), RequestMapping(pa, r), r.page * PAGESIZE;
    PageIsAddress(lay, r.page);
    RequestFrame(pa, r);
    RawAfter(m, k, lay, mem, refs, mem', refs', added, view[r.page := t]);
    FreeAfterMap(m, mem, refs, mem', refs', k.child, lay, added, view[r.page := t]);
    EffectView(m, mem, refs, mem', refs', k.child, lay, added, view[r.page := t]);
    RequestBlank(view, low, requests, r, t);
    PlanUser(view, low, requests, r, t, lay);
    RequestBuilt(m, k, lay, mem, refs, pa, r, mem', refs', added);
    MissingIsLevel(mem, k.child, p.tables, va);
    MirrorsMore(mem, mem', k.child, p.tables, va);
    MirrorsLeaves(mem', k.child, p.tables + Touch(va));
  }

  lemma RequestBuilt(m: Machine, k: Fork, lay: Layout, mem: Mem, refs: seq<nat>, pa: nat, r: Request, mem': Mem,
                     refs': seq<nat>, added: seq<nat>)
    requires lay.procStart <= r.page < lay.memVirtual && Building(m, k, lay, mem, refs, multiset{pa})
    requires View(mem, k.child, lay.memVirtual)[r.page] == Unmapped
    requires m.Allocatable(pa) && pa < |k.refs0| && k.refs0[pa] == 0 && Uses(mem, k.child, lay)[pa] == 0
    requires MapEffect(m, mem, refs, mem', refs', k.child, lay, added,
                       View(mem, k.child, lay.memVirtual)[r.page := RequestMapping(pa, r)])
    ensures Building(m, k, lay, mem', refs', multiset{})
  {
    UserPageGain(pa, r.page, r.writable, lay);
    HandIsNew(m, k, lay, mem, refs, mem', refs', added, pa);
    BuildMap(m, k, lay, mem, refs, multiset{pa}, r.page, RequestMapping(pa, r), mem', refs', added);
  }

  /** The page in hand cannot be mapped: it is lost. */
  lemma RequestFailed(m: Machine, k: Fork, lay: Layout, mem: Mem, refs: seq<nat>, low: seq<Translation>,
                      requests: seq<Request>, p: Plan, pa: nat, r: Request,
                      mem': Mem, refs': seq<nat>, added: seq<nat>)
    requires lay.Ok() && p.clean && pa != 0 && HandState(m, k, lay, mem, refs, low, requests, p, pa)
               && r.page < lay.memVirtual
    requires MapEffect(m, mem, refs, mem', refs', k.child, lay, added, View(mem, k.child, lay.memVirtual))
               && AllUsed(m, refs')
    requires Deepened(mem, mem', k.child, r.page * PAGESIZE, |added|, UserPerm(r.writable), false)
    ensures Missing(p.tables, r.page * PAGESIZE) > p.free - 1
    ensures Raw(m, k, mem', refs') && Spoiled(m, k, lay, mem', refs', 0)
  {
    hide Mirrors, LeavesMirror, Extended, SameLeaves, Level, Missing, FreeSet, Raw, Blank, Planned;
    var view := View(mem, k.child, lay.memVirtual);
    PageIsAddress(lay, r.page);
    RawAfter(m, k, lay, mem, refs, mem', refs', added, view);
    FreeAfterMap(m, mem, refs, mem', refs', k.child, lay, added, view);
    MissingIsLevel(mem, k.child, p.tables, r.page * PAGESIZE);
    HandLost(m, k, lay, mem, refs, pa, mem', refs', added);
  }

  lemma HandLost(m: Machine, k: Fork, lay: Layout, mem: Mem, refs: seq<nat>, pa: nat, mem': Mem, refs': seq<nat>,
                 added: seq<nat>)
    requires m.Allocatable(pa) && pa < |k.refs0| && k.refs0[pa] == 0 && Uses(mem, k.child, lay)[pa] == 0 && pa < |refs|
               && refs[pa] != 0
    requires MapEffect(m, mem, refs, mem', refs', k.child, lay, added, View(mem, k.child, lay.memVirtual))
    ensures Leaked(m, k, lay, mem', refs', pa) && pa != 0
  {
    assert pa !in added;
    assert pa !in multiset(added);
    assert Uses(mem', k.child, lay)[pa] == Uses(mem, k.child, lay)[pa] + multiset(added)[pa];
  }

  /** The page in hand is mapped over another: that one is lost. */
  lemma RequestAgain(m: Machine, k: Fork, lay: Layout, mem: Mem, refs: seq<nat>, low: seq<Translation>,
                     requests: seq<Request>, p: Plan, pa: nat, r: Request,
                     mem': Mem, refs': seq<nat>, added: seq<nat>)
    requires lay.Ok() && p.clean && pa != 0 && HandState(m, k, lay, mem, refs, low, requests, p, pa)
    requires |low| == lay.procStart <= r.page < lay.memVirtual && Requested(requests, r.page)
    requires MapEffect(m, mem, refs, mem', refs', k.child, lay, added,
                       View(mem, k.child, lay.memVirtual)[r.page := RequestMapping(pa, r)])
    ensures Raw(m, k, mem', refs') && Spoiled(m, k, lay, mem', refs', 0)
  {
    hide Mirrors, LeavesMirror, FreeSet, Raw, Blank, AllProper, AllNew, ChildSound, Counts;
    var view, t := View(mem, k.child, lay.memVirtual), RequestMapping(pa, r);
    RawAfter(m, k, lay, mem, refs, mem', refs', added, view[r.page := t]);
    var i :| 0 <= i < |requests| && requests[i].page == r.page;
    assert Granted(view, requests[i]);
    OldLost(m, k, lay, mem, refs, pa, r, mem', refs', added);
  }

  lemma OldLost(m: Machine, k: Fork, lay: Layout, mem: Mem, refs: seq<nat>, pa: nat, r: Request, mem': Mem,
                refs': seq<nat>, added: seq<nat>)
    requires Building(m, k, lay, mem, refs, multiset{pa}) && Uses(mem, k.child, lay)[pa] == 0
    requires lay.procStart <= r.page < lay.memVirtual && View(mem, k.child, lay.memVirtual)[r.page].Mapped?
    requires MapEffect(m, mem, refs, mem', refs', k.child, lay, added,
                       View(mem, k.child, lay.memVirtual)[r.page := RequestMapping(pa, r)])
    ensures var f := FrameIn(View(mem, k.child, lay.memVirtual)[r.page]); Leaked(m, k, lay, mem', refs', f) && f != 0
  {
    hide Tidy, Beyond, SameBeyond, KeepsUsed, View, UserFrames, Pages;
    var view, view' := View(mem, k.child, lay.memVirtual), View(mem', k.child, lay.memVirtual);
    var f := FrameIn(view[r.page]);
    RequestFrame(pa, r);
    assert Proper(view[r.page], r.page, lay);
    UserPageUsed(mem, k.child, lay, r.page);
    assert f !in added;
    assert f !in multiset(added);
    UserFramesUpdateAt(view, view', lay.procStart, lay.memVirtual, r.page, RequestMapping(pa, r), f);
  }

  /** After `try_map` for a requested page, whatever came before. */
  lemma UserDone(m: Machine, k: Fork, lay: Layout, mem: Mem, refs: seq<nat>, low: seq<Translation>,
                 requests: seq<Request>, p: Plan, pa: nat, r: Request,
                 mem': Mem, refs': seq<nat>, added: seq<nat>, mapped: bool)
    requires lay.Ok() && HandState(m, k, lay, mem, refs, low, requests, p, pa)
               && |low| == lay.procStart <= r.page < lay.memVirtual
    requires var view := View(mem, k.child, lay.memVirtual);
             MapEffect(m, mem, refs, mem', refs', k.child, lay, added, if mapped
                       then view[r.page := RequestMapping(pa, r)] else view)
    requires Deepened(mem, mem', k.child, r.page * PAGESIZE, |added|, UserPerm(r.writable), mapped)
               && (!mapped ==> AllUsed(m, refs'))
    ensures SetupState(m, k, lay, mem', refs', low, requests + [r],
                       AfterRequest(p, r.page, Requested(requests, r.page)))
  {
    var view := View(mem, k.child, lay.memVirtual);
    hide Building, Mirrors, MapEffect, Raw, Spoiled, FreeSet, Missing, Touch, Planned, Blank, Lacking;
    if !p.clean {
      RequestFrame(pa, r);
      var t := if mapped then RequestMapping(pa, r) else view[r.page];
      assert view[r.page := view[r.page]] == view;
      RawAfter(m, k, lay, mem, refs, mem', refs', added, view[r.page := t]);
      SpoiledStays(m, k, lay, mem, refs, mem', refs', added, r.page, t, pa);
    } else if pa == 0 {
      if mapped {
        NoTablesTaken(m, mem, refs, mem', refs', k.child, lay, added, view[r.page := RequestMapping(pa, r)]);
        PageIsAddress(lay, r.page);
        LeafAt(mem, k.child, p.tables, r.page * PAGESIZE);
        RawAfter(m, k, lay, mem, refs, mem', refs', added, view[r.page := RequestMapping(pa, r)]);
        NullMapped(m, k, lay, mem, refs, mem', refs', added, r);
      } else {
        NullFailed(m, k, lay, mem, refs, low, requests, p, r, mem', refs', added);
      }
    } else if !mapped {
      RequestFailed(m, k, lay, mem, refs, low, requests, p, pa, r, mem', refs', added);
    } else if Requested(requests, r.page) {
      RequestAgain(m, k, lay, mem, refs, low, requests, p, pa, r, mem', refs', added);
    } else {
      RequestMapped(m, k, lay, mem, refs, low, requests, p, pa, r, mem', refs', added);
    }
  }

  // ---------------------------------------------------------------------------------------
  // The end

  /** The state after the last step, with the new process in its slot: the invariant holds exactly if the plan ends
      with the accounts kept, and everything asked for is mapped besides exactly if the plan is whole. */
  lemma SetupOutcome(m: Machine, mem0: Mem, refs0: seq<nat>, ptable: seq<Proc>, root: nat, lay: Layout, mem: Mem,
                     refs: seq<nat>,
                     low: seq<Translation>, requests: seq<Request>, p: Plan, i: nat, proc: Proc, kernelPt: nat)
    requires InOrder(m, mem0, refs0, ptable, lay)
               && SetupState(m, Fork(mem0, refs0, ptable, 0, root), lay, mem, refs, low, requests, p)
    requires 0 < i < |ptable| && ptable[i].state.Free? && !proc.state.Free? && proc.pagetable == root
    requires KernelTable(m, mem0, kernelPt, lay)
    ensures KeepsUsed(m, mem0, refs0, mem) && SameTranslations(mem0, mem, ptable) && KernelTable(m, mem, kernelPt, lay)
    ensures InOrder(m, mem, refs, ptable[i := proc], lay) <==> p.clean
    ensures InOrder(m, mem, refs, ptable[i := proc], lay)
            && Planned(View(mem, root, lay.memVirtual), low, requests, lay)
       <==> p.whole
  {
    hide Good, Exact, Spoiled, Blank, Mirrors, LeavesMirror, FreeSet, SameTranslations, KernelTable, Building;
    var k := Fork(mem0, refs0, ptable, 0, root);
    TranslationsFrame(m, mem0, refs0, mem, ptable, lay);
    KernelStays(m, mem0, refs0, mem, kernelPt, lay);
    if p.clean {
      FinishSetup(m, k, lay, mem, refs, i, proc);
      KeepsExact(m, mem0, refs0, ptable, mem, refs, ptable[i := proc], lay);
      if !p.whole {
        LackingIsUnplanned(View(mem, root, lay.memVirtual), low, requests, lay);
      }
    } else {
      SpoiledIsBad(m, k, lay, mem, refs, i, proc);
    }
  }
}
