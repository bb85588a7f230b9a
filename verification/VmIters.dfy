/** `vmiter`: the iterator over virtual addresses of k-vmiter.cc.

The iterator caches the entry, level and permissions of its last walk and reuses them.
`AtFresh` says that the cache is what a new walk from the root would give; every method keeps it.
 */
module VmIters {
  import opened Arithmetic
  import opened Paging
  import opened PageTables
  import opened Depths
  import opened Allocator

  /** The entry pointer `pep_`: an entry of a table page, or the static zero entry. */
  datatype Slot = ZeroEntry | At(frame: nat, index: nat)

  datatype Cursor = Cursor(slot: Slot, level: nat, perm: Flags)

  function CursorAt(r: Found, path: Path): Cursor
    requires r.level <= 3
  {
    Cursor(At(r.frame, path[r.level]), r.level, r.perm)
  }

  /** The cursor of a new iterator: a walk from the root. */
  function FreshCursor(mem: Mem, root: nat, va: nat): Cursor {
    if Canonical(va) then CursorAt(RootWalk(mem, root, va), PathOf(va)) else Cursor(ZeroEntry, 3, NONE)
  }

  function Read(mem: Mem, slot: Slot): Word {
    match slot
    case ZeroEntry => ZERO
    case At(f, i) => WordAt(mem, f, i)
  }

  /** `down` panics on an entry that points beyond 4 GB, the mark of an uninitialized table. */
  predicate Initialized(w: Word) {
    FrameOf(w) < 0x10_0000
  }

  /** A physical address handed to `try_map`: -1, or the upper 52 and the low 12 bits. */
  datatype PhysArg = NoPage | Phys(hi: nat, low: Flags)

  /** The address as `try_map` uses it: -1 with no permissions stands for 0. */
  function PhysWord(pa: PhysArg): Word {
    match pa
    case NoPage => ZERO
    case Phys(hi, low) => Word(hi, low)
  }

  /** The entry that `pa | perm` forms. */
  function LeafWord(pa: PhysArg, perm: Flags): Word {
    Word(PhysWord(pa).hi, Or(PhysWord(pa).flags, perm))
  }

  /** The assertions that open `try_map`. */
  predicate MapArgs(pa: PhysArg, perm: Flags) {
    && (pa.NoPage? ==> perm == NONE)
    && (if perm.p then PhysWord(pa).flags == NONE && PhysWord(pa).hi < 0x100_0000_0000
        else !PhysWord(pa).flags.p)
  }

  /** Walking on from where a walk stopped, along a path that shares the way so far. */
  lemma {:induction false} WalkResume(mem: Mem, g: nat, level: nat, p: Path, q: Path, perm: Flags)
    requires level <= 3
    requires SameAbove(p, q, Walk(mem, g, level, p, perm).level, level)
    ensures var r := Walk(mem, g, level, p, perm);
            Walk(mem, g, level, q, perm) == Walk(mem, r.frame, r.level, q, r.perm)
    decreases level
  {
    var w := WordAt(mem, g, p[level]);
    if level > 0 && IsTable(w) {
      assert p[level] == q[level];
      WalkResume(mem, FrameOf(w), level - 1, p, q, And(perm, w.flags));
    }
  }

  /** The shortcut of `real_find`: inside the block of the current table page, the cached table,
      level and permissions are the ones a walk from the root would meet. */
  lemma Shortcut(mem: Mem, root: nat, a: nat, b: nat)
    requires a < VA_END && b < VA_END && Canonical(a)
    requires RootWalk(mem, root, a).level < 3
    requires a / Span(RootWalk(mem, root, a).level + 1) == b / Span(RootWalk(mem, root, a).level + 1)
    ensures Canonical(b)
    ensures var r := RootWalk(mem, root, a); RootWalk(mem, root, b) == Walk(mem, r.frame, r.level, PathOf(b), r.perm)
  {
    var k := RootWalk(mem, root, a).level;
    forall j | k < j <= 3
      ensures PathOf(a)[j] == PathOf(b)[j]
    {
      SameBlockSameIndex(a, b, k + 1, j);
    }
    SameBlockCanonical(a, b, k + 1);
    assert SameAbove(PathOf(a), PathOf(b), k, 3);
    WalkResume(mem, root, 3, PathOf(a), PathOf(b), ALL_PERM);
  }

  /** Does the translation of `va` carry all the permissions of `p`? */
  predicate Allows(mem: Mem, root: nat, va: nat, p: Flags) {
    var t := Translate(mem, root, va);
    t.Mapped? && And(t.perm, p) == p
  }

  /** Every table below an iterator keeps the present bit in the permissions it passes on. */
  lemma {:induction false} WalkKeepsPresent(mem: Mem, g: nat, level: nat, q: Path, perm: Flags)
    requires level <= 3 && perm.p
    ensures Walk(mem, g, level, q, perm).perm.p
    decreases level
  {
    var w := WordAt(mem, g, q[level]);
    if level > 0 && IsTable(w) {
      assert And(perm, w.flags).p;
      WalkKeepsPresent(mem, FrameOf(w), level - 1, q, And(perm, w.flags));
    }
  }

  /** All addresses of the block in which a walk ends share its entry. */
  lemma BlockShares(mem: Mem, root: nat, a: nat, b: nat)
    requires a < VA_END && b < VA_END
    requires a / Span(FreshCursor(mem, root, a).level) == b / Span(FreshCursor(mem, root, a).level)
    ensures FreshCursor(mem, root, b) == FreshCursor(mem, root, a)
  {
    SameBlockCanonical(a, b, FreshCursor(mem, root, a).level);
    if Canonical(a) {
      WalkBlock(mem, root, a, b);
      SameBlockSameIndex(a, b, RootWalk(mem, root, a).level, RootWalk(mem, root, a).level);
    }
  }

  /** The accessors of a fresh iterator read the translation. */
  lemma CursorMeaning(mem: Mem, root: nat, va: nat)
    ensures var c, t := FreshCursor(mem, root, va), Translate(mem, root, va);
            && (Present(Read(mem, c.slot)) <==> t.Mapped?)
            && (t.Mapped? ==>
                t.perm == And(c.perm, Read(mem, c.slot).flags)
                && t.pa == Physical(Read(mem, c.slot), c.level, va))
  {
  }

  /** A present entry of a fresh iterator has a nonzero permission word. */
  lemma PresentHasPerm(mem: Mem, root: nat, va: nat)
    ensures Translate(mem, root, va).Mapped? ==> Translate(mem, root, va).perm.p
  {
    if Canonical(va) {
      WalkKeepsPresent(mem, root, 3, PathOf(va), ALL_PERM);
    }
  }

  /** No walk in the table meets the panic in `down`. */
  ghost predicate TableInitialized(mem: Mem, root: nat) {
    forall va :: Initialized(Read(mem, FreshCursor(mem, root, va).slot))
  }

  /** The entry that a path leads to is one the kernel itself could have written: it names
      a page below 4 GB, is present only in a leaf table, and the tables above it restrict nothing. */
  ghost predicate TidyAt(mem: Mem, root: nat, q: Path) {
    var r := Walk(mem, root, 3, q, ALL_PERM);
    && Initialized(FinalWord(mem, r, q))
    && (r.level > 0 ==> !Present(FinalWord(mem, r, q)))
    && And(r.perm, PTE_PWU) == PTE_PWU
  }

  ghost predicate Tidy(mem: Mem, root: nat) {
    forall q: Path :: TidyAt(mem, root, q)
  }

  lemma TidyIsInitialized(mem: Mem, root: nat)
    requires Tidy(mem, root)
    ensures TableInitialized(mem, root)
  {
    forall va
      ensures Initialized(Read(mem, FreshCursor(mem, root, va).slot))
    {
      assert TidyAt(mem, root, PathOf(va));
    }
  }

  /** Whether walks meet the panic depends on the table's pages only. */
  lemma InitializedFrame(mem: Mem, mem': Mem, root: nat)
    requires Agree(mem, mem', Pages(mem, root, 3)) && TableInitialized(mem, root)
    ensures TableInitialized(mem', root)
  {
    hide Walk, Pages;
    forall va
      ensures Initialized(Read(mem', FreshCursor(mem', root, va).slot))
    {
      assert Initialized(Read(mem, FreshCursor(mem, root, va).slot));
      WalkFrame(mem, mem', root, 3, PathOf(va), ALL_PERM);
      FinalWordFrame(mem, mem', root, 3, PathOf(va), ALL_PERM);
    }
  }

  lemma TidyAtFrame(mem: Mem, mem': Mem, root: nat, q: Path)
    requires Agree(mem, mem', Pages(mem, root, 3))
    ensures TidyAt(mem', root, q) <==> TidyAt(mem, root, q)
  {
    hide Walk, Pages;
    WalkFrame(mem, mem', root, 3, q, ALL_PERM);
    FinalWordFrame(mem, mem', root, 3, q, ALL_PERM);
  }

  /** A table whose pages are counted, and reached once each. */
  ghost predicate Rooted(m: Machine, root: nat)
    reads m
  {
    && NoDup(Pages(m.mem, root, 3))
    && forall f :: f in Pages(m.mem, root, 3) ==> f < m.npages && f < |m.refs| && m.refs[f] != 0
  }

  /** What `try_map` does to memory and counts: it takes the free pages `added` into the table,
      counts each once, and writes nowhere but in the table. */
  ghost predicate Gained(mem0: Mem, refs0: seq<nat>, m: Machine, root: nat, added: seq<nat>)
    reads m
  {
    && Accounted(mem0, refs0, m.mem, m.refs, root, added)
    && forall f :: f in added ==> m.Allocatable(f)
  }

  ghost predicate Accounted(mem0: Mem, refs0: seq<nat>, mem: Mem, refs: seq<nat>, root: nat, added: seq<nat>) {
    && |mem0| == |refs0| == |mem| == |refs|
    && multiset(Pages(mem, root, 3)) == multiset(Pages(mem0, root, 3)) + multiset(added)
    && (forall f :: f in added ==> f < |refs| && refs0[f] == 0 && refs[f] == 1)
    && (forall f :: 0 <= f < |refs| && f !in added ==> refs[f] == refs0[f])
    && (forall f :: 0 <= f < |mem| && f !in added && f !in Pages(mem0, root, 3) ==> mem[f] == mem0[f])
  }

  lemma GainNone(mem: Mem, refs: seq<nat>, root: nat)
    requires |mem| == |refs|
    ensures Accounted(mem, refs, mem, refs, root, [])
  {
  }

  lemma GainStep(mem0: Mem, refs0: seq<nat>, mem1: Mem, refs1: seq<nat>, mem2: Mem, refs2: seq<nat>,
                 root: nat, added: seq<nat>, z: nat)
    requires Accounted(mem0, refs0, mem1, refs1, root, added)
    requires z < |refs1| && refs1[z] == 0 && refs2 == refs1[z := 1] && |mem2| == |mem1|
    requires multiset(Pages(mem2, root, 3)) == multiset(Pages(mem1, root, 3)) + multiset{z}
    requires forall f :: 0 <= f < |mem1| && f != z && f !in Pages(mem1, root, 3) ==> mem2[f] == mem1[f]
    ensures Accounted(mem0, refs0, mem2, refs2, root, added + [z])
  {
    hide Pages;
    forall f | 0 <= f < |mem2| && f !in added + [z] && f !in Pages(mem0, root, 3)
      ensures mem2[f] == mem0[f]
    {
      assert f !in added;
      assert f !in multiset(Pages(mem1, root, 3));
    }
  }

  /** The memory after `*pep_ = pt | PTE_P | PTE_W | PTE_U`, where `z` is the zeroed page `pt`. */
  function Linked(mem: Mem, t: nat, i: nat, z: nat): Mem
    requires t < |mem| && z < |mem| && z != t && i < |mem[t]|
  {
    mem[z := Filled(ZERO)][t := mem[t][i := Word(z, PTE_PWU)]]
  }

  /** The walk along `path` ends at an absent entry above the leaf level, in a page of memory. */
  ghost predicate Gap(mem: Mem, r: Found, path: Path) {
    && 1 <= r.level <= 3 && !Present(FinalWord(mem, r, path))
    && r.frame < |mem| && |mem[r.frame]| == ENTRIES
  }

  lemma LinkSite(mem: Mem, mem': Mem, g: nat, level: nat, path: Path, perm: Flags, z: nat)
    requires level <= 3
    requires var r := Walk(mem, g, level, path, perm);
             Gap(mem, r, path) && z < |mem| && z < 0x10_0000 && z != r.frame
                 && mem' == Linked(mem, r.frame, path[r.level], z)
    requires NoDup(Pages(mem, g, level)) && z !in Pages(mem, g, level)
    ensures var r := Walk(mem, g, level, path, perm);
            Site(mem, mem', g, level, path, r.frame, r.level, Word(z, PTE_PWU), z)
  {
    WalkOnPath(mem, g, level, path, perm);
  }

  /** Two memories give all addresses the same translation. */
  ghost predicate SameTranslation(mem: Mem, mem': Mem, root: nat) {
    forall x :: Translate(mem', root, x) == Translate(mem, root, x)
  }

  lemma LinkedPages(mem: Mem, t: nat, i: nat, z: nat)
    requires t < |mem| && z < |mem| && z != t && i < |mem[t]|
    ensures var mem' := Linked(mem, t, i, z);
            && |mem'| == |mem| && mem'[z] == Filled(ZERO) && WordAt(mem', t, i) == Word(z, PTE_PWU)
            && forall f :: 0 <= f < |mem| && f != z && f != t ==> mem'[f] == mem[f]
  {
  }

  lemma SameThen(mem0: Mem, mem1: Mem, mem2: Mem, root: nat)
    requires SameTranslation(mem0, mem1, root) && SameTranslation(mem1, mem2, root)
    ensures SameTranslation(mem0, mem2, root)
  {
    hide Translate;
  }

  lemma SameNow(mem: Mem, root: nat)
    ensures SameTranslation(mem, mem, root)
  {
  }

  /** One turn of the loop in `try_map`. */
  lemma LinkFresh(mem: Mem, mem': Mem, root: nat, va: nat, r: Found, z: nat)
    requires r == RootWalk(mem, root, va) && Gap(mem, r, PathOf(va))
    requires NoDup(Pages(mem, root, 3)) && z !in Pages(mem, root, 3) && z < |mem| && z < 0x10_0000 && z != r.frame
    requires mem' == Linked(mem, r.frame, PathOf(va)[r.level], z)
    ensures multiset(Pages(mem', root, 3)) == multiset(Pages(mem, root, 3)) + multiset{z}
    ensures NoDup(Pages(mem', root, 3))
    ensures RootWalk(mem', root, va) == Found(z, r.level - 1, And(r.perm, PTE_PWU))
    ensures SameTranslation(mem, mem', root)
    ensures Tidy(mem, root) ==> Tidy(mem', root)
  {
    var path, w := PathOf(va), Word(z, PTE_PWU);
    LinkSite(mem, mem', root, 3, path, ALL_PERM, z);
    PatchPages(mem, mem', root, 3, path, r.frame, r.level, w, z);
    AddedOnce(Pages(mem, root, 3), Pages(mem', root, 3), z);
    PatchWalk(mem, mem', root, 3, path, r.frame, r.level, w, z, path, ALL_PERM);
    forall x
      ensures Translate(mem', root, x) == Translate(mem, root, x)
    {
      LinkTranslate(mem, mem', root, path, r.frame, r.level, w, z, x);
    }
    if Tidy(mem, root) {
      PatchTidy(mem, mem', root, path, r.frame, r.level, w, z);
    }
  }

  lemma LinkDeepens(mem: Mem, mem': Mem, root: nat, va: nat, r: Found, z: nat)
    requires Address(va) && r == RootWalk(mem, root, va) && Gap(mem, r, PathOf(va))
    requires NoDup(Pages(mem, root, 3)) && z !in Pages(mem, root, 3) && z < |mem| && z < 0x10_0000 && z != r.frame
    requires mem' == Linked(mem, r.frame, PathOf(va)[r.level], z)
    ensures Extended(mem, mem', root, va, r.level - 1)
  {
    LinkSite(mem, mem', root, 3, PathOf(va), ALL_PERM, z);
    LinkExtends(mem, mem', root, va, Word(z, PTE_PWU), z);
  }

  lemma WriteKeepsLevels(mem: Mem, mem': Mem, root: nat, va: nat, r: Found, w: Word)
    requires r == RootWalk(mem, root, va) && r.level == 0 && r.frame < |mem| && |mem[r.frame]| == ENTRIES
    requires mem' == mem[r.frame := mem[r.frame][PathOf(va)[0] := w]] && NoDup(Pages(mem, root, 3))
    ensures SameLevels(mem, mem', root)
  {
    LeafSite(mem, mem', root, 3, PathOf(va), ALL_PERM, w);
    LeafKeepsLevels(mem, mem', root, va, w);
  }

  lemma AddedOnce(s: seq<nat>, s': seq<nat>, z: nat)
    requires NoDup(s) && z !in s && multiset(s') == multiset(s) + multiset{z}
    ensures NoDup(s')
  {
    forall x
      ensures multiset(s')[x] <= 1
    {
      assert multiset(s)[x] <= 1;
    }
  }

  /** Tidiness survives the writes of `try_map`. */
  lemma PatchTidy(mem: Mem, mem': Mem, root: nat, path: Path, t: nat, l: nat, w: Word, z: nat)
    requires l <= 3 && Tidy(mem, root)
    requires Site(mem, mem', root, 3, path, t, l, w, z)
    requires if l > 0 then w.flags == PTE_PWU else Initialized(w)
    ensures Tidy(mem', root)
  {
    forall q: Path
      ensures TidyAt(mem', root, q)
    {
      assert TidyAt(mem, root, q);
      PatchFinal(mem, mem', root, 3, path, t, l, w, z, q, ALL_PERM);
      PatchWalk(mem, mem', root, 3, path, t, l, w, z, q, ALL_PERM);
    }
  }

  /** The page of `va` is translated by the leaf entry `w`, every other address as before. */
  ghost predicate Remapped(mem: Mem, mem': Mem, root: nat, va: nat, w: Word, perm: Flags) {
    forall x: nat :: x < VA_END ==>
      Translate(mem', root, x)
      == if Canonical(x) && x / PAGESIZE == va / PAGESIZE then Meaning(w, 0, perm, x) else Translate(mem, root, x)
  }

  lemma LeafSite(mem: Mem, mem': Mem, g: nat, level: nat, path: Path, perm: Flags, w: Word)
    requires level <= 3
    requires var r := Walk(mem, g, level, path, perm);
             r.level == 0 && r.frame < |mem| && |mem[r.frame]| == ENTRIES
                 && mem' == mem[r.frame := mem[r.frame][path[0] := w]]
    requires NoDup(Pages(mem, g, level))
    ensures Site(mem, mem', g, level, path, Walk(mem, g, level, path, perm).frame, 0, w, 0)
  {
    WalkOnPath(mem, g, level, path, perm);
  }

  /** The final store of `try_map`. */
  lemma WriteLeaf(mem: Mem, mem': Mem, root: nat, va: nat, r: Found, w: Word)
    requires va < VA_END && Canonical(va)
    requires r == RootWalk(mem, root, va) && r.level == 0 && r.frame < |mem| && |mem[r.frame]| == ENTRIES
    requires mem' == mem[r.frame := mem[r.frame][PathOf(va)[0] := w]]
    requires NoDup(Pages(mem, root, 3))
    ensures multiset(Pages(mem', root, 3)) == multiset(Pages(mem, root, 3))
    ensures NoDup(Pages(mem', root, 3))
    ensures RootWalk(mem', root, va) == r
    ensures Remapped(mem, mem', root, va, w, r.perm)
    ensures Tidy(mem, root) && Initialized(w) ==> Tidy(mem', root)
  {
    var path := PathOf(va);
    LeafSite(mem, mem', root, 3, path, ALL_PERM, w);
    PatchPages(mem, mem', root, 3, path, r.frame, 0, w, 0);
    SameBag(Pages(mem, root, 3), Pages(mem', root, 3));
    PatchWalk(mem, mem', root, 3, path, r.frame, 0, w, 0, path, ALL_PERM);
    SiteRemaps(mem, mem', root, va, r, w);
    if Tidy(mem, root) && Initialized(w) {
      PatchTidy(mem, mem', root, path, r.frame, 0, w, 0);
    }
  }

  lemma SiteRemaps(mem: Mem, mem': Mem, root: nat, va: nat, r: Found, w: Word)
    requires va < VA_END && Canonical(va)
    requires r == RootWalk(mem, root, va) && r.level == 0
    requires Site(mem, mem', root, 3, PathOf(va), r.frame, 0, w, 0)
    ensures Remapped(mem, mem', root, va, w, r.perm)
  {
    forall x: nat | x < VA_END
      ensures Translate(mem', root, x)
              == if Canonical(x) && x / PAGESIZE == va / PAGESIZE then Meaning(w, 0, r.perm, x)
                  else Translate(mem, root, x)
    {
      LeafTranslate(mem, mem', root, va, w, x);
    }
  }

  lemma SameBag(s: seq<nat>, s': seq<nat>)
    requires NoDup(s) && multiset(s') == multiset(s)
    ensures NoDup(s')
  {
    forall x
      ensures multiset(s')[x] <= 1
    {
      assert multiset(s)[x] <= 1;
    }
  }

  class VmIter {
    const m: Machine
    const pt: nat
    var slot: Slot
    var level: nat
    var perm: Flags
    var va: nat

    ghost predicate AtFresh()
      reads this, m
    {
      va < VA_END && Cursor(slot, level, perm) == FreshCursor(m.mem, pt, va)
    }

    function Entry(): Word
      reads this, m
    {
      Read(m.mem, slot)
    }

    /** `pa()`, with -1 as `NoPage`. */
    function Pa(): PhysArg
      requires level <= 3
      reads this, m
    {
      if Present(Entry()) then
        var pa := Physical(Entry(), level, va);
        Phys(pa / PAGESIZE, LowBits(pa))
      else NoPage
    }

    function Perm(): Flags
      reads this, m
    {
      if Present(Entry()) then And(perm, Entry().flags) else NONE
    }

    predicate Has(p: Flags)
      reads this, m
    {
      And(And(perm, Entry().flags), p) == p
    }

    function LastVa(): nat
      requires level <= 3
      reads this
    {
      (BitOr(va, PageOffMask(level)) + 1) % VA_END
    }

    constructor (m: Machine, pt: nat, va: nat)
      requires va < VA_END
      requires Initialized(Read(m.mem, FreshCursor(m.mem, pt, va).slot))
      ensures this.m == m && this.pt == pt && this.va == va
      ensures AtFresh()
    {
      this.m := m;
      this.pt := pt;
      this.slot := At(pt, 0);
      this.level := 3;
      this.perm := ALL_PERM;
      this.va := 0;
      new;
      RealFind(va);
    }

    /** Follows entries from the current one as far as they lead. */
    method Down()
      requires level <= 3 && va < VA_END
      requires slot.At? ==> slot.index == PathOf(va)[level]
      requires slot.ZeroEntry? ==> level == 3
      requires slot.At? ==> Initialized(FinalWord(m.mem, Walk(m.mem, slot.frame, level, PathOf(va), perm), PathOf(va)))
      modifies this
      ensures va == old(va)
      ensures old(slot).ZeroEntry? ==> slot == old(slot) && level == old(level) && perm == old(perm)
      ensures old(slot).At? ==>
                Cursor(slot, level, perm)
                    == CursorAt(Walk(m.mem, old(slot).frame, old(level), PathOf(va), old(perm)), PathOf(va))
    {
      ghost var goal := if slot.At? then Walk(m.mem, slot.frame, level, PathOf(va), perm) else Found(0, 3, perm);
      while level > 0 && IsTable(Entry())
        invariant level <= 3 && va == old(va)
        invariant slot.At? == old(slot).At?
        invariant slot.ZeroEntry? ==> slot == old(slot) && level == old(level) && perm == old(perm)
        invariant slot.At? ==>
                    slot.index == PathOf(va)[level]
                    && goal == Walk(m.mem, slot.frame, level, PathOf(va), perm)
        decreases level
      {
        var w := Entry();
        perm := And(perm, w.flags);
        level := level - 1;
        slot := At(FrameOf(w), PathOf(va)[level]);
      }
      assert Initialized(Entry());  // otherwise the kernel panics here
    }

    /** Moves to `target`, walking from the root only when it leaves the current table page. */
    method RealFind(target: nat)
      requires target < VA_END && (level == 3 || AtFresh())
      requires Initialized(Read(m.mem, FreshCursor(m.mem, pt, target).slot))
      modifies this
      ensures va == target && AtFresh()
    {
      if level < 3 {
        XorTestIsBlockTest(va, target, level + 1);
      }
      if level == 3 || BitAndNot(BitXor(va, target), PageOffMask(level + 1)) != 0 {
        level := 3;
        if Canonical(target) {
          perm := ALL_PERM;
          slot := At(pt, PathOf(target)[level]);
        } else {
          perm := NONE;
          slot := ZeroEntry;
        }
      } else {
        Shortcut(m.mem, pt, va, target);
        slot := At(slot.frame, PathOf(target)[level]);
      }
      va := target;
      Down();
    }

    /** Moves to the end of the block of the current entry. */
    method NextRange()
      requires AtFresh() && TableInitialized(m.mem, pt)
      modifies this
      ensures AtFresh() && va == BlockEnd(old(va), old(level))
    {
      OrMaskIsBlockEnd(va, level);
      RealFind(LastVa());
    }

    /** Moves to a later page boundary and passes over no mapped page on the way; a result of 0
        means that the end of the address space was reached. */
    method Next()
      requires AtFresh() && TableInitialized(m.mem, pt)
      modifies this
      ensures AtFresh()
      ensures va == BlockEnd(old(va), if Translate(m.mem, pt, old(va)) == Unmapped then old(level) else 0)
      ensures va == 0 || old(va) < va
      ensures va % PAGESIZE == 0
      ensures forall x :: old(va) < x < VA_END && x / PAGESIZE != old(va) / PAGESIZE && (va == 0 || x < va)
                ==> Translate(m.mem, pt, x) == Unmapped
    {
      hide Pow2, BitOr, PageOffMask;
      var l := 0;
      if level > 0 && Perm() == NONE {
        l := level;
      }
      ghost var a := va;
      CursorMeaning(m.mem, pt, a);
      PresentHasPerm(m.mem, pt, a);
      BlockEndFacts(a, l);
      OrMaskIsBlockEnd(va, l);
      RealFind((BitOr(va, PageOffMask(l)) + 1) % VA_END);
      forall x | a < x < VA_END && x / PAGESIZE != a / PAGESIZE && (va == 0 || x < va)
        ensures Translate(m.mem, pt, x) == Unmapped
      {
        SkippedShareBlock(a, x, l);
        if l > 0 {
          BlockShares(m.mem, pt, a, x);
          CursorMeaning(m.mem, pt, x);
        }
      }
    }

    /** `perm(last, p)`: do all addresses from here up to `last` have the permissions `p`? */
    method RangeHas(last: nat, p: Flags) returns (ok: bool)
      requires AtFresh() && TableInitialized(m.mem, pt)
      requires last <= VA_LOWEND && p.p
      modifies this
      ensures ok <==> forall x :: old(va) <= x < last ==> Allows(m.mem, pt, x, p)
    {
      while va < last
        invariant AtFresh()
        invariant old(va) <= va
        invariant forall x :: old(va) <= x < last && x < va ==> Allows(m.mem, pt, x, p)
        decreases last - va
      {
        HasIsAllows(m.mem, pt, va, p);
        if !Has(p) {
          return false;
        }
        ghost var a, l := va, level;
        BlockEndFacts(a, l);
        NextRange();
        forall x | old(va) <= x < last && x < va
          ensures Allows(m.mem, pt, x, p)
        {
          if a <= x {
            InBlock(a, x, l);
            BlockShares(m.mem, pt, a, x);
            HasIsAllows(m.mem, pt, x, p);
          }
        }
      }
      return true;
    }

    /** `low_perm(first, size, p)`: is the whole range low and allowed? */
    method LowPerm(first: nat, size: nat, p: Flags) returns (ok: bool)
      requires AtFresh() && TableInitialized(m.mem, pt)
      requires first < VA_END && size < VA_END && p.p
      modifies this
      ensures ok <==> first + size <= VA_LOWEND && forall x :: first <= x < first + size ==> Allows(m.mem, pt, x, p)
    {
      if first <= VA_LOWEND && size <= VA_LOWEND - first {
        if size == 0 {
          return true;
        }
        RealFind(first);
        ok := RangeHas(first + size, p);
      } else {
        ok := false;
      }
    }

    /** The iterator is at an absent entry above the leaf level. */
    lemma GapHere()
      requires m.Valid() && AtFresh() && Rooted(m, pt) && Canonical(va) && level > 0 && !Present(Entry())
      ensures var r := RootWalk(m.mem, pt, va);
              && slot == At(r.frame, PathOf(va)[r.level]) && level == r.level && perm == r.perm
                  && Gap(m.mem, r, PathOf(va))
              && r.frame < m.npages && m.refs[r.frame] != 0
    {
      hide Pages, Walk;
      WalkInPages(m.mem, pt, 3, PathOf(va), ALL_PERM);
    }

    /** The zeroed page `z`, free before, has just been linked. */
    lemma LinkedHere(mem0: Mem, refs0: seq<nat>, r: Found, z: nat)
      requires m.Valid() && va < VA_END && Canonical(va) && r == RootWalk(mem0, pt, va) && Gap(mem0, r, PathOf(va))
      requires |mem0| == |refs0| == m.npages && NoDup(Pages(mem0, pt, 3))
      requires forall f :: f in Pages(mem0, pt, 3) ==> f < m.npages && refs0[f] != 0
      requires slot == At(r.frame, PathOf(va)[r.level]) && level == r.level && perm == r.perm
      requires z < m.npages && refs0[z] == 0 && m.refs == refs0[z := 1] && r.frame < m.npages && refs0[r.frame] != 0
      requires m.mem == Linked(mem0, r.frame, PathOf(va)[r.level], z)
      ensures multiset(Pages(m.mem, pt, 3)) == multiset(Pages(mem0, pt, 3)) + multiset{z} && Rooted(m, pt)
      ensures forall f :: 0 <= f < m.npages && f != z && f !in Pages(mem0, pt, 3) ==> m.mem[f] == mem0[f]
      ensures SameTranslation(mem0, m.mem, pt) && Extended(mem0, m.mem, pt, va, level - 1)
                && (Tidy(mem0, pt) ==> Tidy(m.mem, pt))
      ensures RootWalk(m.mem, pt, va) == Found(z, level - 1, And(perm, PTE_PWU))
      ensures Walk(m.mem, slot.frame, level, PathOf(va), perm) == Found(z, level - 1, And(perm, PTE_PWU))
      ensures WordAt(m.mem, z, PathOf(va)[level - 1]) == ZERO
    {
      hide Extended, Tidy, SameTranslation, And, Walk, Pages, Rooted, Linked, Filled, PathOf;
      WalkInPages(mem0, pt, 3, PathOf(va), ALL_PERM);
      LinkedPages(mem0, r.frame, PathOf(va)[r.level], z);
      LinkFresh(mem0, m.mem, pt, va, r, z);
      LinkDeepens(mem0, m.mem, pt, va, r, z);
      StillRooted(m, mem0, refs0, pt, z);
      ResumeLinked(m.mem, slot.frame, level, PathOf(va), perm, z);
    }

    /** One turn of the loop in `try_map`: link a zeroed page at the current, absent entry. */
    method LinkTable() returns (ok: bool, ghost z: nat)
      requires m.Valid() && AtFresh() && Rooted(m, pt)
      requires Canonical(va) && level > 0 && !Present(Entry())
      modifies this, m
      ensures m.Valid() && AtFresh() && Rooted(m, pt) && va == old(va)
      ensures !ok ==> m.mem == old(m.mem) && m.refs == old(m.refs) && m.Full() && level == old(level)
      ensures ok ==> level == old(level) - 1 && perm == And(old(perm), PTE_PWU) && Entry() == ZERO
      ensures ok ==> m.Allocatable(z) && old(m.refs)[z] == 0 && m.refs == old(m.refs)[z := 1]
      ensures ok ==> multiset(Pages(m.mem, pt, 3)) == old(multiset(Pages(m.mem, pt, 3))) + multiset{z}
      ensures ok ==> forall f :: 0 <= f < m.npages && f != z && f !in old(Pages(m.mem, pt, 3)) ==>
                m.mem[f] == old(m.mem)[f]
      ensures SameTranslation(old(m.mem), m.mem, pt)
      ensures ok ==> Extended(old(m.mem), m.mem, pt, va, level)
      ensures old(Tidy(m.mem, pt)) ==> Tidy(m.mem, pt)
    {
      hide Extended, Tidy, SameTranslation, And, Walk, Pages, Filled;
      GapHere();
      ghost var found := RootWalk(m.mem, pt, va);
      ghost var mem0, refs0 := m.mem, m.refs;
      var table := m.Kalloc(PAGESIZE);
      z := table;
      if table == 0 {
        SameNow(m.mem, pt);
        return false, z;
      }
      m.StorePage(table, Filled(ZERO));
      m.Store(slot.frame, slot.index, Word(table, PTE_PWU));
      LinkedHere(mem0, refs0, found, table);
      Down();
      ok := true;
    }

    /** The final store of `try_map`, in any table. */
    method WriteLeafEntry(w: Word)
      requires m.Valid() && level == 0 && slot.At? && slot.frame < m.npages && slot.index < ENTRIES
      modifies m`mem
      ensures m.Valid() && m.mem == old(m.mem)[slot.frame := old(m.mem)[slot.frame][slot.index := w]]
    {
      m.Store(slot.frame, slot.index, w);
    }

    /** The final store of `try_map`, in a table whose pages are counted. */
    method WriteEntry(w: Word)
      requires m.Valid() && AtFresh() && Rooted(m, pt)
      requires Canonical(va) && level == 0
      modifies m
      ensures m.Valid() && AtFresh() && Rooted(m, pt) && m.refs == old(m.refs)
      ensures multiset(Pages(m.mem, pt, 3)) == old(multiset(Pages(m.mem, pt, 3)))
      ensures forall f :: 0 <= f < m.npages && f !in old(Pages(m.mem, pt, 3)) ==> m.mem[f] == old(m.mem)[f]
      ensures Remapped(old(m.mem), m.mem, pt, va, w, perm)
      ensures SameLevels(old(m.mem), m.mem, pt)
      ensures old(Tidy(m.mem, pt)) && Initialized(w) ==> Tidy(m.mem, pt)
    {
      WalkInPages(m.mem, pt, 3, PathOf(va), ALL_PERM);
      ghost var mem0 := m.mem;
      WriteLeafEntry(w);
      WriteLeaf(mem0, m.mem, pt, va, RootWalk(mem0, pt, va), w);
      WriteKeepsLevels(mem0, m.mem, pt, va, RootWalk(mem0, pt, va), w);
      SameMembers(Pages(mem0, pt, 3), Pages(m.mem, pt, 3));
    }

    /** Nothing has been linked yet. */
    lemma ExtendedHere()
      requires AtFresh() && Canonical(va)
      ensures Extended(m.mem, m.mem, pt, va, level)
    {
      hide Extended;
      ExtendedNow(m.mem, pt, va);
    }

    /** Maps the current address to `pa` with permissions `p`. On success the page has exactly that
        translation; on failure, which happens only when memory is full, no translation changed,
        though empty table pages may have been linked. */
    method TryMap(pa: PhysArg, p: Flags) returns (r: int, ghost added: seq<nat>)
      requires m.Valid() && AtFresh() && Rooted(m, pt)
      requires Canonical(va) && va % PAGESIZE == 0
      requires MapArgs(pa, p)
      requires And(And(p, PTE_PWU), perm) == And(p, PTE_PWU)
      requires level > 0 && p != NONE ==> !Present(Entry())
      modifies this, m
      ensures m.Valid() && AtFresh() && Rooted(m, pt) && va == old(va)
      ensures Gained(old(m.mem), old(m.refs), m, pt, added)
      ensures r == 0 || r == -1
      ensures r == -1 ==> p != NONE && m.Full() && |added| < old(level) && SameTranslation(old(m.mem), m.mem, pt)
      ensures r == 0 && p != NONE ==> |added| == old(level)
      ensures r == 0 && (p != NONE || old(level) == 0) ==>
                && Remapped(old(m.mem), m.mem, pt, va, LeafWord(pa, p), perm)
                && And(And(p, PTE_PWU), perm) == And(p, PTE_PWU)
      ensures p == NONE ==> r == 0 && added == []
      ensures p == NONE && old(level) > 0 ==> m.mem == old(m.mem)
      ensures r == 0 && p != NONE ==> Extended(old(m.mem), m.mem, pt, va, 0)
      ensures p == NONE ==> SameLevels(old(m.mem), m.mem, pt)
      ensures r == -1 ==> SameLeaves(old(m.mem), m.mem, pt)
      ensures old(Tidy(m.mem, pt)) && Initialized(PhysWord(pa)) ==> Tidy(m.mem, pt)
    {
      added := [];
      hide Extended, SameLevels, SameLeaves, Accounted, Remapped, Rooted, And, Tidy, SameTranslation,
           FreshCursor;
      ExtendedHere();
      SameLevelsNow(m.mem, pt);
      SameNow(m.mem, pt);
      GainNone(m.mem, m.refs, pt);
      while level > 0 && p != NONE
        invariant m.Valid() && AtFresh() && Rooted(m, pt) && va == old(va)
        invariant level > 0 && p != NONE ==> !Present(Entry())
        invariant And(And(p, PTE_PWU), perm) == And(p, PTE_PWU)
        invariant Gained(old(m.mem), old(m.refs), m, pt, added)
        invariant SameTranslation(old(m.mem), m.mem, pt)
        invariant |added| + level == old(level) && Extended(old(m.mem), m.mem, pt, va, level)
        invariant p == NONE ==> level == old(level) && added == [] && m.mem == old(m.mem)
        invariant old(Tidy(m.mem, pt)) ==> Tidy(m.mem, pt)
        decreases level
      {
        ghost var mem1, refs1, perm1 := m.mem, m.refs, perm;
        assert Accounted(old(m.mem), old(m.refs), mem1, refs1, pt, added);
        var ok, z := LinkTable();
        if !ok {
          PartialKeepsLeaves(old(m.mem), m.mem, pt, va, level);
          return -1, added;
        }
        SameThen(old(m.mem), mem1, m.mem, pt);
        GainStep(old(m.mem), old(m.refs), mem1, refs1, m.mem, m.refs, pt, added, z);
        KeepsPerm(p, perm1);
        ExtendedOn(old(m.mem), mem1, m.mem, pt, va, level + 1, level);
        added := added + [z];
      }
      if level == 0 {
        ghost var mem1 := m.mem;
        WriteEntry(LeafWord(pa, p));
        GainKeep(old(m.mem), old(m.refs), mem1, m.refs, m.mem, pt, added);
        RemappedFrom(old(m.mem), mem1, m.mem, pt, va, LeafWord(pa, p), perm);
        ExtendedSame(old(m.mem), mem1, m.mem, pt, va, 0);
      }
      return 0, added;
    }
  }

  /** From a freshly linked entry the walk goes one step down and stops. */
  lemma ResumeLinked(mem: Mem, t: nat, level: nat, path: Path, perm: Flags, z: nat)
    requires 1 <= level <= 3 && z < |mem| && z < 0x10_0000 && mem[z] == Filled(ZERO)
    requires WordAt(mem, t, path[level]) == Word(z, PTE_PWU)
    ensures Walk(mem, t, level, path, perm) == Found(z, level - 1, And(perm, PTE_PWU))
    ensures WordAt(mem, z, path[level - 1]) == ZERO
  {
  }

  lemma GainKeep(mem0: Mem, refs: seq<nat>, mem1: Mem, refs1: seq<nat>, mem2: Mem, root: nat, added: seq<nat>)
    requires Accounted(mem0, refs, mem1, refs1, root, added) && |mem2| == |mem1|
    requires multiset(Pages(mem2, root, 3)) == multiset(Pages(mem1, root, 3))
    requires forall f :: 0 <= f < |mem1| && f !in Pages(mem1, root, 3) ==> mem2[f] == mem1[f]
    ensures Accounted(mem0, refs, mem2, refs1, root, added)
  {
    forall f | 0 <= f < |mem2| && f !in added && f !in Pages(mem0, root, 3)
      ensures mem2[f] == mem0[f]
    {
      assert f !in multiset(Pages(mem1, root, 3));
    }
  }

  lemma KeepsPerm(p: Flags, perm: Flags)
    requires And(And(p, PTE_PWU), perm) == And(p, PTE_PWU)
    ensures And(And(p, PTE_PWU), And(perm, PTE_PWU)) == And(p, PTE_PWU)
  {
  }

  lemma SameMembers(s: seq<nat>, s': seq<nat>)
    requires multiset(s') == multiset(s)
    ensures forall x :: x in s' <==> x in s
  {
    forall x
      ensures x in s' <==> x in s
    {
      assert x in s' <==> x in multiset(s');
      assert x in s <==> x in multiset(s);
    }
  }

  lemma StillRooted(m: Machine, mem0: Mem, refs0: seq<nat>, root: nat, z: nat)
    requires m.Valid() && |refs0| == m.npages && z < m.npages && m.refs == refs0[z := 1]
    requires forall f :: f in Pages(mem0, root, 3) ==> f < m.npages && refs0[f] != 0
    requires multiset(Pages(m.mem, root, 3)) == multiset(Pages(mem0, root, 3)) + multiset{z}
    requires NoDup(Pages(m.mem, root, 3))
    ensures Rooted(m, root)
  {
    forall f | f in Pages(m.mem, root, 3)
      ensures f < m.npages && m.refs[f] != 0
    {
      assert f in multiset(Pages(m.mem, root, 3));
      assert f == z || f in multiset(Pages(mem0, root, 3));
      assert f == z || f in Pages(mem0, root, 3);
    }
  }

  lemma RemappedFrom(mem0: Mem, mem1: Mem, mem2: Mem, root: nat, va: nat, w: Word, perm: Flags)
    requires SameTranslation(mem0, mem1, root) && Remapped(mem1, mem2, root, va, w, perm)
    ensures Remapped(mem0, mem2, root, va, w, perm)
  {
  }

  /** `perm(p)` on a fresh iterator. */
  lemma HasIsAllows(mem: Mem, root: nat, va: nat, p: Flags)
    requires p.p
    ensures var c := FreshCursor(mem, root, va);
            And(And(c.perm, Read(mem, c.slot).flags), p) == p <==> Allows(mem, root, va, p)
  {
    CursorMeaning(mem, root, va);
    var c := FreshCursor(mem, root, va);
    if And(And(c.perm, Read(mem, c.slot).flags), p) == p {
      AllowsNeedsPresent(c.perm, Read(mem, c.slot).flags, p);
    }
  }

  lemma AllowsNeedsPresent(a: Flags, b: Flags, p: Flags)
    requires p.p && And(And(a, b), p) == p
    ensures b.p
  {
  }

  lemma BlockEndFacts(a: nat, l: nat)
    requires a < VA_END && l <= 3
    ensures BlockEnd(a, l) < VA_END && BlockEnd(a, l) % PAGESIZE == 0
    ensures if BlockEnd(a, l) == 0 then (a / Span(l) + 1) * Span(l) == VA_END
            else BlockEnd(a, l) == (a / Span(l) + 1) * Span(l) > a
    ensures a < VA_LOWEND ==> BlockEnd(a, l) > a
  {
    if l == 0 {
      RoundUp(a, 0x1000, 1, 0x10_0000_0000_0000);
    } else if l == 1 {
      RoundUp(a, 0x20_0000, 512, 0x800_0000_0000);
    } else if l == 2 {
      RoundUp(a, 0x4000_0000, 0x4_0000, 0x4_0000_0000);
    } else {
      RoundUp(a, 0x80_0000_0000, 0x800_0000, 0x200_0000);
    }
  }

  /** Rounding up to a multiple of `s`, which is `k` pages and divides the address space into `n` blocks. */
  lemma RoundUp(a: nat, s: nat, k: nat, n: nat)
    requires s == k * PAGESIZE && n * s == VA_END && 0 < s && a < VA_END
    requires s <= 0x80_0000_0000
    ensures var e := (a / s + 1) * s;
            && a < e <= VA_END && e % PAGESIZE == 0
            && e % VA_END == (if e == VA_END then 0 else e)
            && (a < VA_LOWEND ==> e < VA_END)
  {
    var q := a / s;
    DivBounds(a, s);
    if q + 1 > n {
      MulAtMost(n, q, s);
    } else {
      MulAtMost(q + 1, n, s);
    }
    MulAssoc(q + 1, k, PAGESIZE);
    assert ((q + 1) * k) * PAGESIZE % PAGESIZE == 0;
  }

  lemma DivBounds(a: nat, s: nat)
    requires 0 < s
    ensures a / s * s <= a < (a / s + 1) * s
    ensures (a / s + 1) * s == a / s * s + s
  {
  }

  lemma MulAssoc(x: nat, y: nat, z: nat)
    ensures x * (y * z) == x * y * z
  {
  }

  lemma InBlock(a: nat, x: nat, l: nat)
    requires l <= 3 && a <= x < (a / Span(l) + 1) * Span(l)
    ensures x / Span(l) == a / Span(l)
  {
  }

  lemma SkippedShareBlock(a: nat, x: nat, l: nat)
    requires l <= 3 && a < x < VA_END && a < VA_END && x / PAGESIZE != a / PAGESIZE
    requires BlockEnd(a, l) == 0 || x < BlockEnd(a, l)
    ensures l > 0 && x / Span(l) == a / Span(l)
  {
    BlockEndFacts(a, l);
    InBlock(a, x, l);
  }
}
