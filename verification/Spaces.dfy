/** Address spaces of processes, and who owns which physical page.

`Owned` is the multiset of all page uses: each process contributes its page-table pages and
the frames that its user mappings name. The kernel's reference counts are meant to be this multiset.
 */
module Spaces {
  import opened Paging
  import opened PageTables
  import opened Depths
  import opened Allocator
  import opened VmIters

  /** The kernel's layout constants, in pages: NPROC, CONSOLE_ADDR, PROC_START_ADDR and MEMSIZE_VIRTUAL. */
  datatype Layout = Layout(nproc: nat, console: nat, procStart: nat, memVirtual: nat) {
    predicate Ok() {
      && 1 <= nproc < REFCOUNT_END
      && console < procStart <= memVirtual && memVirtual * PAGESIZE <= VA_LOWEND
      && Reserved(console)
    }
  }

  datatype ProcState = Free | Runnable | Blocked | Broken

  /** The saved registers; `rax` carries the result of a system call. */
  datatype Regs = Regs(rax: int, others: seq<nat>)

  datatype Proc = Proc(pid: nat, pagetable: nat, state: ProcState, regs: Regs)

  /** The translation of virtual page `v`. */
  function PageAt(mem: Mem, root: nat, v: nat): Translation {
    Translate(mem, root, v * PAGESIZE)
  }

  /** No permission but present, writable and user. */
  predicate OnlyPWU(perm: Flags) {
    !perm.ps && perm.rest == 0
  }

  predicate Writable(t: Translation) {
    t.Mapped? && t.perm.p && t.perm.w
  }

  predicate User(t: Translation) {
    t.Mapped? && t.perm.p && t.perm.u
  }

  function FrameIn(t: Translation): nat
    requires t.Mapped?
  {
    t.pa / PAGESIZE
  }

  /** The translations of the first `n` virtual pages. */
  function View(mem: Mem, root: nat, n: nat): (s: seq<Translation>)
    ensures |s| == n
    decreases n, |mem|
  {
    if n == 0 then [] else View(mem, root, n - 1) + [PageAt(mem, root, n - 1)]
  }

  ghost function UserFrame(t: Translation): multiset<nat> {
    if User(t) then multiset{FrameIn(t)} else multiset{}
  }

  /** The frames that the user mappings of pages `lo` to `hi` name, counted once per mapping. */
  ghost function UserFrames(view: seq<Translation>, lo: nat, hi: nat): multiset<nat>
    requires hi <= |view|
  {
    if hi <= lo then multiset{} else UserFrames(view, lo, hi - 1) + UserFrame(view[hi - 1])
  }

  lemma UserFramesStep(view: seq<Translation>, lo: nat, hi: nat)
    requires 0 < hi <= |view|
    ensures UserFrames(view, lo, hi) == UserFrames(view, lo, hi - 1) + if lo < hi then UserFrame(view[hi - 1])
              else multiset{}
  {
    hide UserFrame;
  }

  ghost function CountAt(t: Translation, f: nat): nat {
    if User(t) && FrameIn(t) == f then 1 else 0
  }

  /** How many user mappings of pages `lo` to `hi` name frame `f`. */
  ghost function Tally(view: seq<Translation>, lo: nat, hi: nat, f: nat): nat
    requires hi <= |view|
  {
    if hi <= lo then 0 else Tally(view, lo, hi - 1, f) + CountAt(view[hi - 1], f)
  }

  lemma {:induction false} TallyIsCount(view: seq<Translation>, lo: nat, hi: nat, f: nat)
    requires hi <= |view|
    ensures UserFrames(view, lo, hi)[f] == Tally(view, lo, hi, f)
    decreases hi
  {
    if lo < hi {
      var a, b := UserFrames(view, lo, hi - 1), UserFrame(view[hi - 1]);
      TallyIsCount(view, lo, hi - 1, f);
      assert b[f] == CountAt(view[hi - 1], f);
      assert (a + b)[f] == a[f] + b[f];
    }
  }

  lemma {:induction false} TallyUpdate(view: seq<Translation>, view': seq<Translation>, lo: nat, hi: nat, v: nat,
                                       t: Translation, f: nat)
    requires v < |view| && hi <= |view| && view' == view[v := t]
    ensures Tally(view', lo, hi, f) + (if lo <= v < hi then CountAt(view[v], f) else 0)
         == Tally(view, lo, hi, f) + if lo <= v < hi then CountAt(t, f) else 0
    decreases hi
  {
    if lo < hi {
      TallyUpdate(view, view', lo, hi - 1, v, t, f);
    }
  }

  /** Replacing one mapping exchanges its frame. */
  lemma UserFramesUpdate(view: seq<Translation>, view': seq<Translation>, lo: nat, hi: nat, v: nat, t: Translation)
    requires lo <= v < hi <= |view| && view' == view[v := t]
    ensures UserFrames(view', lo, hi) + UserFrame(view[v]) == UserFrames(view, lo, hi) + UserFrame(t)
  {
    forall f: nat
      ensures (UserFrames(view', lo, hi) + UserFrame(view[v]))[f] == (UserFrames(view, lo, hi) + UserFrame(t))[f]
    {
      UserFramesUpdateAt(view, view', lo, hi, v, t, f);
      SumsAt(UserFrames(view', lo, hi), UserFrame(view[v]), UserFrames(view, lo, hi), UserFrame(t), f);
    }
  }

  lemma UserFramesUpdateAt(view: seq<Translation>, view': seq<Translation>, lo: nat, hi: nat, v: nat, t: Translation,
                           f: nat)
    requires lo <= v < hi <= |view| && view' == view[v := t]
    ensures UserFrames(view', lo, hi)[f] + UserFrame(view[v])[f] == UserFrames(view, lo, hi)[f] + UserFrame(t)[f]
  {
    TallyUpdate(view, view', lo, hi, v, t, f);
    TallyIsCount(view, lo, hi, f);
    TallyIsCount(view', lo, hi, f);
  }

  lemma SumsAt(a: multiset<nat>, x: multiset<nat>, b: multiset<nat>, y: multiset<nat>, f: nat)
    requires a[f] + x[f] == b[f] + y[f]
    ensures (a + x)[f] == (b + y)[f]
  {
  }

  lemma UserFramesUntouched(view: seq<Translation>, view': seq<Translation>, lo: nat, hi: nat, v: nat, t: Translation)
    requires v < lo && v < |view| && hi <= |view| && view' == view[v := t]
    ensures UserFrames(view', lo, hi) == UserFrames(view, lo, hi)
  {
    forall f: nat
      ensures UserFrames(view', lo, hi)[f] == UserFrames(view, lo, hi)[f]
    {
      TallyUpdate(view, view', lo, hi, v, t, f);
      TallyIsCount(view, lo, hi, f);
      TallyIsCount(view', lo, hi, f);
    }
  }

  ghost function UserBag(view: seq<Translation>, lay: Layout): multiset<nat>
    requires |view| == lay.memVirtual
  {
    UserFrames(view, lay.procStart, lay.memVirtual)
  }

  /** The page uses of one address space. */
  ghost function Uses(mem: Mem, root: nat, lay: Layout): multiset<nat> {
    multiset(Pages(mem, root, 3)) + UserBag(View(mem, root, lay.memVirtual), lay)
  }

  ghost function OwnedBy(mem: Mem, p: Proc, lay: Layout): multiset<nat> {
    if p.state.Free? then multiset{} else Uses(mem, p.pagetable, lay)
  }

  ghost function Shares(mem: Mem, ptable: seq<Proc>, lay: Layout): seq<multiset<nat>> {
    seq(|ptable|, i requires 0 <= i < |ptable| => OwnedBy(mem, ptable[i], lay))
  }

  ghost function Total(xs: seq<multiset<nat>>): multiset<nat> {
    if xs == [] then multiset{} else Total(xs[..|xs| - 1]) + xs[|xs| - 1]
  }

  /** The page uses of all processes. */
  ghost function Owned(mem: Mem, ptable: seq<Proc>, lay: Layout): multiset<nat> {
    Total(Shares(mem, ptable, lay))
  }

  /** What every mapping below MEMSIZE_VIRTUAL looks like: only the three software permissions; below
      PROC_START_ADDR kernel mappings, of which the console alone is open to users; above it, user mappings. */
  ghost predicate Proper(t: Translation, v: nat, lay: Layout) {
    t.Mapped? ==>
      && t.pa % PAGESIZE == 0
      && OnlyPWU(t.perm)
      && (v < lay.procStart ==> Writable(t) && (User(t) ==> v == lay.console && FrameIn(t) == lay.console))
      && (lay.procStart <= v ==> User(t))
  }

  ghost predicate AllProper(view: seq<Translation>, lay: Layout) {
    forall v :: 0 <= v < |view| ==> Proper(view[v], v, lay)
  }

  /** Nothing is mapped from MEMSIZE_VIRTUAL on. */
  ghost predicate Beyond(mem: Mem, root: nat, lay: Layout) {
    forall va: nat :: lay.memVirtual * PAGESIZE <= va < VA_END ==> Translate(mem, root, va) == Unmapped
  }

  /** From MEMSIZE_VIRTUAL on, the two memories give the same translations. */
  ghost predicate SameBeyond(mem: Mem, mem': Mem, root: nat, lay: Layout) {
    forall va: nat :: lay.memVirtual * PAGESIZE <= va < VA_END ==> Translate(mem', root, va) == Translate(mem, root, va)
  }

  lemma BeyondStays(mem: Mem, mem': Mem, root: nat, lay: Layout)
    requires Beyond(mem, root, lay) && SameBeyond(mem, mem', root, lay)
    ensures Beyond(mem', root, lay)
  {
    forall va: nat | lay.memVirtual * PAGESIZE <= va < VA_END
      ensures Translate(mem', root, va) == Unmapped
    {
      assert Translate(mem, root, va) == Unmapped;
    }
  }

  lemma BeyondFrame(mem: Mem, mem': Mem, root: nat, lay: Layout)
    requires Agree(mem, mem', Pages(mem, root, 3))
    ensures SameBeyond(mem, mem', root, lay) && (Beyond(mem, root, lay) ==> Beyond(mem', root, lay))
  {
    TranslateFrame(mem, mem', root);
    if Beyond(mem, root, lay) {
      BeyondStays(mem, mem', root, lay);
    }
  }

  /** A complete address space: no page is used twice, all its pages are the allocator's, and there is nothing else. */
  ghost predicate Space(m: Machine, mem: Mem, root: nat, lay: Layout) {
    && Tidy(mem, root)
    && (forall f :: Uses(mem, root, lay)[f] <= 1)
    && (forall f :: f in Uses(mem, root, lay) ==> m.Allocatable(f))
    && AllProper(View(mem, root, lay.memVirtual), lay)
    && Beyond(mem, root, lay)
  }

  /** Memory may differ only in pages that were free. */
  ghost predicate KeepsUsed(m: Machine, mem0: Mem, refs0: seq<nat>, mem: Mem) {
    && |mem0| == |refs0| == |mem| == m.npages
    && forall f :: 0 <= f < |mem| && !(m.Allocatable(f) && refs0[f] == 0) ==> mem[f] == mem0[f]
  }

  lemma {:induction false} ViewAt(mem: Mem, root: nat, n: nat, v: nat)
    requires v < n
    ensures View(mem, root, n)[v] == PageAt(mem, root, v)
    decreases n
  {
    if v < n - 1 {
      ViewAt(mem, root, n - 1, v);
    }
  }

  lemma PageOffset(f: nat, va: nat)
    ensures (f * PAGESIZE + va % PAGESIZE) / PAGESIZE == f && (f * PAGESIZE + va % PAGESIZE) % PAGESIZE == va % PAGESIZE
    ensures va / PAGESIZE * PAGESIZE / PAGESIZE == va / PAGESIZE && va / PAGESIZE * PAGESIZE % PAGESIZE == 0
  {
  }

  /** The walk of an address and that of its page end at the same entry. */
  lemma SamePageWalk(mem: Mem, root: nat, a: nat, va: nat)
    requires a / PAGESIZE == va / PAGESIZE
    ensures Canonical(a) == Canonical(va) && RootWalk(mem, root, va) == RootWalk(mem, root, a)
    ensures var r := RootWalk(mem, root, a); FinalWord(mem, r, PathOf(va)) == FinalWord(mem, r, PathOf(a))
  {
    SameBlockCanonical(a, va, 0);
    SameBlockSameIndex(a, va, 0, RootWalk(mem, root, a).level);
    WalkBlock(mem, root, a, va);
  }

  lemma TidyEntry(mem: Mem, root: nat, a: nat)
    requires Tidy(mem, root)
    ensures var r := RootWalk(mem, root, a); r.level == 0 || !Present(FinalWord(mem, r, PathOf(a)))
  {
    assert TidyAt(mem, root, PathOf(a));
  }

  /** Where tables are missing, nothing is mapped. */
  lemma DeepIsUnmapped(mem: Mem, root: nat, n: nat, v: nat)
    requires Tidy(mem, root) && v < n && n * PAGESIZE <= VA_LOWEND && Level(mem, root, v * PAGESIZE) > 0
    ensures View(mem, root, n)[v] == Unmapped
  {
    ViewAt(mem, root, n, v);
    TidyEntry(mem, root, v * PAGESIZE);
  }

  /** The translation `t` of an address at offset `off` in a page that is translated as `u`. */
  ghost predicate AtOffset(t: Translation, u: Translation, off: nat) {
    && t == (if u.Mapped? then Mapped(u.pa + off, u.perm) else Unmapped)
    && (u.Mapped? ==> u.pa % PAGESIZE == 0 && FrameIn(t) == FrameIn(u))
  }

  lemma LeafMeaning(w: Word, level: nat, perm: Flags, a: nat, va: nat)
    requires level <= 3 && (level == 0 || !Present(w)) && a % PAGESIZE == 0
    ensures AtOffset(Meaning(w, level, perm, va), Meaning(w, level, perm, a), va % PAGESIZE)
  {
    hide FrameOf, And;
    if Present(w) {
      PageOffset(FrameOf(w), va);
      PageOffset(FrameOf(w), a);
    }
  }

  /** In a table that the kernel built, every address is translated as its page is. */
  lemma InPage(mem: Mem, root: nat, va: nat)
    requires Tidy(mem, root) && va < VA_END
    ensures AtOffset(Translate(mem, root, va), PageAt(mem, root, va / PAGESIZE), va % PAGESIZE)
  {
    var a := va / PAGESIZE * PAGESIZE;
    PageOffset(0, va);
    SamePageWalk(mem, root, a, va);
    TidyEntry(mem, root, a);
    var r := RootWalk(mem, root, a);
    hide RootWalk, FinalWord, PathOf, Tidy, And, Meaning, Present;
    LeafMeaning(FinalWord(mem, r, PathOf(a)), r.level, r.perm, a, va);
  }

  lemma SameView(mem: Mem, mem': Mem, root: nat, n: nat)
    requires SameTranslation(mem, mem', root)
    ensures View(mem', root, n) == View(mem, root, n)
  {
    forall v | 0 <= v < n
      ensures View(mem', root, n)[v] == View(mem, root, n)[v]
    {
      ViewAt(mem, root, n, v);
      ViewAt(mem', root, n, v);
      assert Translate(mem', root, v * PAGESIZE) == Translate(mem, root, v * PAGESIZE);
    }
  }

  /** Remapping page `v` replaces one translation of the view. */
  lemma RemapView(mem: Mem, mem': Mem, root: nat, n: nat, v: nat, w: Word, perm: Flags)
    requires v < n && n * PAGESIZE <= VA_LOWEND && Remapped(mem, mem', root, v * PAGESIZE, w, perm)
    ensures View(mem', root, n) == View(mem, root, n)[v := Meaning(w, 0, perm, v * PAGESIZE)]
  {
    forall x | 0 <= x < n
      ensures View(mem', root, n)[x] == (if x == v then Meaning(w, 0, perm, v * PAGESIZE) else View(mem, root, n)[x])
    {
      ViewAt(mem, root, n, x);
      ViewAt(mem', root, n, x);
      PageNumbers(x, v);
      assert x * PAGESIZE < VA_END;
      assert Translate(mem', root, x * PAGESIZE)
          == if x * PAGESIZE / PAGESIZE == v * PAGESIZE / PAGESIZE then Meaning(w, 0, perm, x * PAGESIZE)
             else Translate(mem, root, x * PAGESIZE);
    }
  }

  lemma PageNumbers(x: nat, v: nat)
    ensures x * PAGESIZE / PAGESIZE == x && v * PAGESIZE / PAGESIZE == v
  {
  }

  lemma PageIsAddress(lay: Layout, v: nat)
    requires lay.Ok() && v < lay.memVirtual
    ensures Address(v * PAGESIZE)
  {
  }

  lemma UsesFrame(mem: Mem, mem': Mem, root: nat, lay: Layout)
    requires Agree(mem, mem', Pages(mem, root, 3))
    ensures Pages(mem', root, 3) == Pages(mem, root, 3)
    ensures View(mem', root, lay.memVirtual) == View(mem, root, lay.memVirtual)
    ensures Uses(mem', root, lay) == Uses(mem, root, lay)
  {
    TranslateFrame(mem, mem', root);
    assert SameTranslation(mem, mem', root);
    SameView(mem, mem', root, lay.memVirtual);
  }

  lemma TidyFrame(mem: Mem, mem': Mem, root: nat)
    requires Agree(mem, mem', Pages(mem, root, 3)) && Tidy(mem, root)
    ensures Tidy(mem', root)
  {
    forall q: Path
      ensures TidyAt(mem', root, q)
    {
      assert TidyAt(mem, root, q);
      TidyAtFrame(mem, mem', root, q);
    }
  }

  /** An address space depends only on its table pages. */
  lemma SpaceFrame(m: Machine, mem: Mem, mem': Mem, root: nat, lay: Layout)
    requires Agree(mem, mem', Pages(mem, root, 3)) && Space(m, mem, root, lay)
    ensures Space(m, mem', root, lay)
  {
    UsesFrame(mem, mem', root, lay);
    TidyFrame(mem, mem', root);
    BeyondFrame(mem, mem', root, lay);
  }

  /** Process `i`'s table pages are used, so they survive writes to free pages. */
  lemma UsedPagesAgree(m: Machine, mem0: Mem, refs0: seq<nat>, mem: Mem, root: nat)
    requires KeepsUsed(m, mem0, refs0, mem)
    requires forall f :: f in Pages(mem0, root, 3) ==> f < |refs0| && refs0[f] != 0
    ensures Agree(mem0, mem, Pages(mem0, root, 3))
  {
  }

  lemma OwnedFrame(mem: Mem, mem': Mem, ptable: seq<Proc>, lay: Layout)
    requires forall i :: 0 <= i < |ptable| && !ptable[i].state.Free? ==>
               Agree(mem, mem', Pages(mem, ptable[i].pagetable, 3))
    ensures Owned(mem', ptable, lay) == Owned(mem, ptable, lay)
  {
    forall i | 0 <= i < |ptable|
      ensures OwnedBy(mem', ptable[i], lay) == OwnedBy(mem, ptable[i], lay)
    {
      if !ptable[i].state.Free? {
        UsesFrame(mem, mem', ptable[i].pagetable, lay);
      }
    }
    assert Shares(mem', ptable, lay) == Shares(mem, ptable, lay);
  }

  lemma {:induction false} TotalUpdate(xs: seq<multiset<nat>>, i: nat, y: multiset<nat>)
    requires i < |xs|
    ensures Total(xs[i := y]) + xs[i] == Total(xs) + y
  {
    var n := |xs| - 1;
    if i == n {
      assert xs[i := y][..n] == xs[..n];
    } else {
      TotalUpdate(xs[..n], i, y);
      assert xs[i := y][..n] == xs[..n][i := y];
      AddToBoth(Total(xs[..n][i := y]), xs[i], Total(xs[..n]), y, xs[n]);
    }
  }

  lemma AddToBoth(a: multiset<nat>, x: multiset<nat>, b: multiset<nat>, y: multiset<nat>, c: multiset<nat>)
    requires a + x == b + y
    ensures (a + c) + x == (b + c) + y
  {
    assert (a + c) + x == (a + x) + c;
    assert (b + c) + y == (b + y) + c;
  }

  lemma PartOf(a: multiset<nat>, x: multiset<nat>, t: multiset<nat>)
    requires a + x == t + multiset{}
    ensures x <= t && a + x == t
  {
    assert t + multiset{} == t;
  }

  lemma {:induction false} TotalIncludes(xs: seq<multiset<nat>>, i: nat)
    requires i < |xs|
    ensures xs[i] <= Total(xs)
  {
    TotalUpdate(xs, i, multiset{});
    PartOf(Total(xs[i := multiset{}]), xs[i], Total(xs));
  }

  lemma TotalIncludesBoth(xs: seq<multiset<nat>>, i: nat, j: nat)
    requires i < |xs| && j < |xs| && i != j
    ensures xs[i] + xs[j] <= Total(xs)
  {
    TotalUpdate(xs, i, multiset{});
    PartOf(Total(xs[i := multiset{}]), xs[i], Total(xs));
    TotalIncludes(xs[i := multiset{}], j);
  }

  lemma {:induction false} TotalBound(xs: seq<multiset<nat>>, f: nat)
    requires forall i :: 0 <= i < |xs| ==> xs[i][f] <= 1
    ensures Total(xs)[f] <= |xs|
    ensures xs != [] && xs[0][f] == 0 ==> Total(xs)[f] < |xs|
  {
    if xs != [] {
      TotalBound(xs[..|xs| - 1], f);
    }
  }

  /** Replacing one process exchanges its contribution. */
  lemma OwnedUpdate(mem: Mem, ptable: seq<Proc>, lay: Layout, i: nat, p: Proc)
    requires i < |ptable|
    ensures Owned(mem, ptable[i := p], lay) + OwnedBy(mem, ptable[i], lay)
              == Owned(mem, ptable, lay) + OwnedBy(mem, p, lay)
  {
    assert Shares(mem, ptable[i := p], lay) == Shares(mem, ptable, lay)[i := OwnedBy(mem, p, lay)];
    TotalUpdate(Shares(mem, ptable, lay), i, OwnedBy(mem, p, lay));
  }

  lemma OwnedIncludes(mem: Mem, ptable: seq<Proc>, lay: Layout, i: nat)
    requires i < |ptable|
    ensures OwnedBy(mem, ptable[i], lay) <= Owned(mem, ptable, lay)
  {
    TotalIncludes(Shares(mem, ptable, lay), i);
  }

  lemma OwnedIncludesBoth(mem: Mem, ptable: seq<Proc>, lay: Layout, i: nat, j: nat)
    requires i < |ptable| && j < |ptable| && i != j
    ensures OwnedBy(mem, ptable[i], lay) + OwnedBy(mem, ptable[j], lay) <= Owned(mem, ptable, lay)
  {
    TotalIncludesBoth(Shares(mem, ptable, lay), i, j);
  }

  /** With at most one use of a page per process and slot 0 free, the count stays below NPROC. */
  lemma OwnedBound(mem: Mem, ptable: seq<Proc>, lay: Layout, f: nat)
    requires forall i :: 0 <= i < |ptable| ==> OwnedBy(mem, ptable[i], lay)[f] <= 1
    requires ptable != [] && ptable[0].state.Free?
    ensures Owned(mem, ptable, lay)[f] < |ptable|
  {
    TotalBound(Shares(mem, ptable, lay), f);
  }
}
