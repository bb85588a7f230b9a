/** The kernel's own page table, as `init_kernel_memory` and `kernel` build it.

It lies in five pages of the kernel image. Two leaf tables cover 4 MB page by page; beyond 1 GB there are large pages.
 */
module KernelTables {
  import opened Paging
  import opened PageTables
  import opened Allocator
  import opened VmIters
  import opened Spaces
  import opened Setups

  const LEAVES: nat := 1024

  /** A page of 1 GB at `k` GB, which only the kernel may access. */
  function LargePage(k: nat): Word {
    Word(k * 0x4_0000, Flags(true, true, false, true, 0))
  }

  /** The page of 2 MB that holds the kernel's symbols. */
  const SYMBOLS: Word := Word(0x1000, Flags(true, true, false, true, 0))

  /** A table all of whose entries are zero but the first four. */
  function FourEntries(a: Word, b: Word, c: Word, d: Word): (p: Page)
    ensures |p| == ENTRIES && p[0] == a && p[1] == b && p[2] == c && p[3] == d
    ensures forall i :: 4 <= i < ENTRIES ==> p[i] == ZERO
  {
    Filled(ZERO)[0 := a][1 := b][2 := c][3 := d]
  }

  function Entry(f: nat): Word {
    Word(f, PTE_PWU)
  }

  /** The five pages from `p` on, with the entries `leaves` in the two leaf tables. The page of symbols is mapped when
      they are first needed. */
  ghost predicate Shape(mem: Mem, p: nat, leaves: seq<Word>) {
    && p + 5 <= |mem| <= 0x10_0000 && |leaves| == LEAVES
    && mem[p] == FourEntries(Entry(p + 1), ZERO, ZERO, ZERO)
    && mem[p + 1] == FourEntries(Entry(p + 2), LargePage(1), LargePage(2), LargePage(3))
    && (var middle := FourEntries(Entry(p + 3), Entry(p + 4), ZERO, ZERO);
        mem[p + 2] == middle || mem[p + 2] == middle[8 := SYMBOLS])
    && mem[p + 3] == leaves[..ENTRIES] && mem[p + 4] == leaves[ENTRIES..]
    && forall v :: 0 <= v < LEAVES ==> Initialized(leaves[v])
  }

  /** The pages at each level of the table. */
  ghost predicate OnLevel(p: nat, level: nat, f: nat) {
    if level == 3 then f == p
    else if level == 2 then f == p + 1
    else if level == 1 then f == p + 2
    else f == p + 3 || f == p + 4
  }

  /** Every entry stays within the five pages, or is no table; none points beyond 4 GB. */
  lemma EntriesStay(mem: Mem, p: nat, leaves: seq<Word>, level: nat, f: nat, i: nat)
    requires Shape(mem, p, leaves) && level <= 3 && OnLevel(p, level, f) && i < ENTRIES
    ensures Initialized(WordAt(mem, f, i))
    ensures level > 0 && IsTable(WordAt(mem, f, i)) ==> OnLevel(p, level - 1, FrameOf(WordAt(mem, f, i)))
  {
    if level == 0 {
      assert WordAt(mem, f, i) == leaves[if f == p + 3 then i else ENTRIES + i];
    }
  }

  lemma {:induction false} BelowStays(mem: Mem, p: nat, leaves: seq<Word>, level: nat, f: nat, i: nat, x: nat)
    requires Shape(mem, p, leaves) && level <= 3 && OnLevel(p, level, f) && i <= ENTRIES && x in Below(mem, f, level, i)
    ensures p <= x < p + 5
    decreases level, ENTRIES - i
  {
    hide Shape;
    EntriesStay(mem, p, leaves, level, f, i);
    if x in Child(mem, f, level, i) {
      PagesStay(mem, p, leaves, level - 1, FrameOf(WordAt(mem, f, i)), x);
    } else {
      BelowStays(mem, p, leaves, level, f, i + 1, x);
    }
  }

  /** The table has no other pages. */
  lemma {:induction false} PagesStay(mem: Mem, p: nat, leaves: seq<Word>, level: nat, f: nat, x: nat)
    requires Shape(mem, p, leaves) && level <= 3 && OnLevel(p, level, f) && x in Pages(mem, f, level)
    ensures p <= x < p + 5
    decreases level, ENTRIES + 1
  {
    hide Shape;
    if x != f {
      BelowStays(mem, p, leaves, level, f, 0, x);
    }
  }

  lemma {:induction false} WalkStays(mem: Mem, p: nat, leaves: seq<Word>, level: nat, f: nat, q: Path, perm: Flags)
    requires Shape(mem, p, leaves) && level <= 3 && OnLevel(p, level, f)
    ensures var r := Walk(mem, f, level, q, perm); Initialized(FinalWord(mem, r, q))
    decreases level
  {
    hide Shape, And;
    EntriesStay(mem, p, leaves, level, f, q[level]);
    var w := WordAt(mem, f, q[level]);
    if level > 0 && IsTable(w) {
      WalkStays(mem, p, leaves, level - 1, FrameOf(w), q, And(perm, w.flags));
    }
  }

  /** No walk meets the panic of the iterators, large pages and high addresses included. */
  lemma ShapeInitialized(mem: Mem, p: nat, leaves: seq<Word>)
    requires Shape(mem, p, leaves)
    ensures TableInitialized(mem, p)
  {
    hide Shape, Walk;
    forall va
      ensures Initialized(Read(mem, FreshCursor(mem, p, va).slot))
    {
      WalkStays(mem, p, leaves, 3, p, PathOf(va), ALL_PERM);
    }
  }

  /** The path of an address from 1 GB to 4 GB. */
  lemma DevicePath(va: nat)
    requires 0x4000_0000 <= va < 0x1_0000_0000
    ensures Canonical(va) && Index(va, 3) == 0 && 1 <= Index(va, 2) <= 3 && Index(va, 2) == va / 0x4000_0000
  {
    assert va / 0x80_0000_0000 == 0;
    assert 1 <= va / 0x4000_0000 <= 3;
  }

  lemma GigabyteOffset(k: nat, va: nat)
    requires k == va / 0x4000_0000
    ensures k * 0x4_0000 * PAGESIZE + va % 0x4000_0000 == va
  {
  }

  /** The kernel's table maps every address from 1 GB to 4 GB, where devices are, to itself; the kernel may write
      there, and users have no access. */
  lemma DevicesMapToThemselves(mem: Mem, p: nat, leaves: seq<Word>, va: nat)
    requires Shape(mem, p, leaves) && 0x4000_0000 <= va < 0x1_0000_0000
    ensures var t := Translate(mem, p, va); t.Mapped? && t.pa == va && Writable(t) && !User(t)
  {
    hide PathOf, Walk;
    var q, k := PathOf(va), va / 0x4000_0000;
    DevicePath(va);
    PathIs(va);
    assert WordAt(mem, p, q[3]) == Entry(p + 1) && WordAt(mem, p + 1, q[2]) == LargePage(k);
    WalkOne(mem, p, 3, p + 1, q, ALL_PERM);
    WalkLarge(mem, p + 1, k, q, And(ALL_PERM, PTE_PWU));
    LargeMeaning(k, And(ALL_PERM, PTE_PWU), va);
  }

  lemma PathIs(va: nat)
    ensures PathOf(va)[3] == Index(va, 3) && PathOf(va)[2] == Index(va, 2)
  {
  }

  lemma WalkLarge(mem: Mem, f: nat, k: nat, q: Path, perm: Flags)
    requires WordAt(mem, f, q[2]) == LargePage(k)
    ensures Walk(mem, f, 2, q, perm) == Found(f, 2, perm)
  {
  }

  lemma LargeMeaning(k: nat, perm: Flags, va: nat)
    requires perm == PTE_PWU && 1 <= k <= 3 && k == va / 0x4000_0000
    ensures var t := Meaning(LargePage(k), 2, perm, va); t.Mapped? && t.pa == va && Writable(t) && !User(t)
  {
    GigabyteOffset(k, va);
    assert FrameOf(LargePage(k)) == k * 0x4_0000 && k * 0x4_0000 % 2 == 0;
  }

  lemma LowPath(v: nat)
    requires v < LEAVES
    ensures PathOf(v * PAGESIZE) == [v % ENTRIES, v / ENTRIES, 0, 0] && Canonical(v * PAGESIZE)
  {
    var a := v * PAGESIZE;
    assert a / 0x1000 == v && a / 0x20_0000 == v / 512 && a / 0x4000_0000 == 0 && a / 0x80_0000_0000 == 0;
  }

  /** The walk to a page below 4 MB ends at its entry in a leaf table. */
  lemma LeafWalk(mem: Mem, p: nat, leaves: seq<Word>, v: nat)
    requires Shape(mem, p, leaves) && v < LEAVES
    ensures RootWalk(mem, p, v * PAGESIZE) == Found(p + 3 + v / ENTRIES, 0, PTE_PWU)
    ensures WordAt(mem, p + 3 + v / ENTRIES, v % ENTRIES) == leaves[v]
  {
    var q := PathOf(v * PAGESIZE);
    LowPath(v);
    WalkThree(mem, p, p + 1, p + 2, p + 3 + v / ENTRIES, q);
  }

  /** A walk through three tables that restrict nothing. */
  lemma WalkThree(mem: Mem, a: nat, b: nat, c: nat, d: nat, q: Path)
    requires b < 0x10_0000 && c < 0x10_0000 && d < 0x10_0000
    requires WordAt(mem, a, q[3]) == Entry(b) && WordAt(mem, b, q[2]) == Entry(c) && WordAt(mem, c, q[1]) == Entry(d)
    ensures Walk(mem, a, 3, q, ALL_PERM) == Found(d, 0, PTE_PWU)
  {
    hide Walk;
    WalkOne(mem, a, 3, b, q, ALL_PERM);
    WalkOne(mem, b, 2, c, q, PTE_PWU);
    WalkOne(mem, c, 1, d, q, PTE_PWU);
    WalkEnd(mem, d, q, PTE_PWU);
    assert And(ALL_PERM, PTE_PWU) == PTE_PWU == And(PTE_PWU, PTE_PWU);
  }

  lemma WalkOne(mem: Mem, f: nat, level: nat, g: nat, q: Path, perm: Flags)
    requires 0 < level <= 3 && g < 0x10_0000 && WordAt(mem, f, q[level]) == Entry(g)
    ensures Walk(mem, f, level, q, perm) == Walk(mem, g, level - 1, q, And(perm, PTE_PWU))
  {
  }

  lemma WalkEnd(mem: Mem, f: nat, q: Path, perm: Flags)
    ensures Walk(mem, f, 0, q, perm) == Found(f, 0, perm)
  {
  }

  // ---------------------------------------------------------------------------------------
  // The entries that the kernel makes

  /** The permissions that `kernel` gives a page below MEMSIZE_PHYSICAL. */
  function KernelPerm(v: nat, console: nat): Flags {
    if v == 0 then NONE else if v < 0x100 && v != console then PTE_PW else PTE_PWU
  }

  /** The entries of the leaf tables after `kernel` has gone through memory of `n` pages. */
  ghost predicate Prepared(leaves: seq<Word>, n: nat, console: nat) {
    && |leaves| == LEAVES && n <= LEAVES
    && (forall v :: 0 <= v < n ==> leaves[v] == Word(v, KernelPerm(v, console)))
    && forall v :: n <= v < LEAVES ==> leaves[v] == ZERO
  }

  /** The five pages are the kernel's own: the allocator never hands them out, and they are not the console. */
  ghost predicate OwnPages(m: Machine, p: nat, lay: Layout) {
    p + 5 <= m.npages && forall f :: p <= f < p + 5 ==> !m.Allocatable(f) && f != lay.console
  }

  /** The kernel's table, as the code builds it, is one that process setup may read. */
  lemma ShapeIsKernelTable(m: Machine, mem: Mem, p: nat, leaves: seq<Word>, n: nat, lay: Layout)
    requires Shape(mem, p, leaves) && Prepared(leaves, n, lay.console) && lay.Ok() && lay.procStart <= 0x100
    requires OwnPages(m, p, lay)
    ensures KernelTable(m, mem, p, lay)
  {
    hide Shape, Walk, Pages, PathOf, Prepared, TableInitialized, TidyAt, LowPage, View;
    ShapeInitialized(mem, p, leaves);
    forall f | f in Pages(mem, p, 3)
      ensures f < m.npages && !m.Allocatable(f) && f != lay.console
    {
      PagesStay(mem, p, leaves, 3, p, f);
      assert !m.Allocatable(f);
    }
    forall v: nat | v < lay.procStart
      ensures TidyAt(mem, p, PathOf(v * PAGESIZE)) && LowPage(View(mem, p, lay.procStart)[v], v, lay)
    {
      LowPageShape(mem, p, leaves, n, lay, v);
    }
  }

  lemma LowPageShape(mem: Mem, p: nat, leaves: seq<Word>, n: nat, lay: Layout, v: nat)
    requires Shape(mem, p, leaves) && Prepared(leaves, n, lay.console) && lay.Ok() && v < lay.procStart <= 0x100
    ensures TidyAt(mem, p, PathOf(v * PAGESIZE)) && LowPage(View(mem, p, lay.procStart)[v], v, lay)
  {
    hide Shape, Walk, View, And;
    LeafWalk(mem, p, leaves, v);
    LowPath(v);
    hide PathOf;
    ViewAt(mem, p, lay.procStart, v);
    PageNumbers(v, v);
    LeafPerm(leaves[v]);
  }

  /** It maps all memory but page 0 to itself, writable for the kernel; users have access to the console and from 1 MB
      on. */
  lemma MemoryMapsToItself(mem: Mem, p: nat, leaves: seq<Word>, n: nat, console: nat, va: nat)
    requires Shape(mem, p, leaves) && Prepared(leaves, n, console) && va / PAGESIZE < n
    ensures var t := Translate(mem, p, va);
            if va < PAGESIZE then t == Unmapped
            else t.Mapped? && t.pa == va && Writable(t) && (User(t) <==> va / PAGESIZE == console || va >= 0x10_0000)
  {
    hide Shape, Walk, And, FourEntries, PathOf, Meaning, RootWalk;
    var v := va / PAGESIZE;
    PageOffset(v, va);
    SamePageWalk(mem, p, v * PAGESIZE, va);
    LeafWalk(mem, p, leaves, v);
    LowCanonical(v);
    LowPath(v);
    OwnPage(v, KernelPerm(v, console), va);
  }

  lemma LowCanonical(v: nat)
    requires v < LEAVES
    ensures Canonical(v * PAGESIZE)
  {
  }

  /** An entry that maps a page to itself maps its addresses to themselves. */
  lemma OwnPage(v: nat, perm: Flags, va: nat)
    requires v < LEAVES && v == va / PAGESIZE && (perm == NONE || perm == PTE_PW || perm == PTE_PWU)
    ensures Meaning(Word(v, perm), 0, PTE_PWU, va) == if perm == NONE then Unmapped else Mapped(va, perm)
  {
    LeafPerm(Word(v, perm));
    assert v * PAGESIZE + va % PAGESIZE == va;
  }

  lemma LeafPerm(w: Word)
    requires w.flags == NONE || w.flags == PTE_PW || w.flags == PTE_PWU
    ensures And(PTE_PWU, w.flags) == w.flags && And(PTE_PWU, PTE_PWU) == PTE_PWU
  {
  }

  // ---------------------------------------------------------------------------------------
  // How it is built

  /** `memset(kernel_pagetable, 0, sizeof(kernel_pagetable))`. */
  method ClearTables(m: Machine, p: nat)
    requires m.Valid() && p + 5 <= m.npages
    modifies m`mem
    ensures m.Valid() && forall f :: p <= f < p + 5 ==> m.mem[f] == Filled(ZERO)
  {
    for i := 0 to 5
      invariant m.Valid() && |m.mem| == m.npages && forall f :: p <= f < p + i ==> m.mem[f] == Filled(ZERO)
    {
      m.StorePage(p + i, Filled(ZERO));
    }
  }

  lemma Sizes(m: Machine)
    requires m.Valid()
    ensures |m.mem| == m.npages <= 0x10_0000 && forall f :: 0 <= f < m.npages ==> |m.mem[f]| == ENTRIES
  {
  }

  method FillFour(m: Machine, f: nat, a: Word, b: Word, c: Word, d: Word)
    requires m.Valid() && f < m.npages && m.mem[f] == Filled(ZERO)
    modifies m`mem
    ensures m.Valid() && m.mem == old(m.mem)[f := FourEntries(a, b, c, d)]
  {
    hide m.Valid;
    Sizes(m);
    m.Store(f, 0, a);
    m.Store(f, 1, b);
    m.Store(f, 2, c);
    m.Store(f, 3, d);
    assert m.mem == old(m.mem)[f := FourEntries(a, b, c, d)];
  }

  /** The five pages before their leaf entries are made. */
  method BuildTables(m: Machine, p: nat)
    requires m.Valid() && p + 5 <= m.npages
    modifies m`mem
    ensures m.Valid() && Shape(m.mem, p, NoLeaves())
  {
    hide m.Valid, FourEntries;
    ClearTables(m, p);
    Sizes(m);
    FillFour(m, p, Entry(p + 1), ZERO, ZERO, ZERO);
    FillFour(m, p + 1, Entry(p + 2), LargePage(1), LargePage(2), LargePage(3));
    FillFour(m, p + 2, Entry(p + 3), Entry(p + 4), ZERO, ZERO);
    Sizes(m);
    assert m.mem[p + 3] == NoLeaves()[..ENTRIES];
    assert m.mem[p + 4] == NoLeaves()[ENTRIES..];
  }

  /** The leaf tables with no entry. */
  function NoLeaves(): (leaves: seq<Word>)
    ensures |leaves| == LEAVES && forall v :: 0 <= v < LEAVES ==> leaves[v] == ZERO
  {
    seq(LEAVES, _ => ZERO)
  }

  /** `it.map(it.va(), perm)` at page `v`. */
  method MapLeaf(m: Machine, it: VmIter, v: nat, perm: Flags, ghost leaves: seq<Word>)
    requires m.Valid() && it.m == m && it.AtFresh() && it.va == v * PAGESIZE && v < LEAVES
    requires Shape(m.mem, it.pt, leaves) && MapArgs(Phys(v, NONE), perm)
    modifies m`mem
    ensures m.Valid() && it.AtFresh() && Shape(m.mem, it.pt, leaves[v := Word(v, perm)])
  {
    hide m.Valid, Shape, Walk, And, FourEntries;
    CursorAtLeaf(m.mem, it.pt, leaves, v);
    OwnWord(v, perm);
    Sizes(m);
    ghost var mem0 := m.mem;
    it.WriteLeafEntry(LeafWord(Phys(v, NONE), perm));
    StoredShape(mem0, it.pt, leaves, v, Word(v, perm), m.mem);
    CursorAtLeaf(m.mem, it.pt, leaves[v := Word(v, perm)], v);
  }

  lemma OwnWord(v: nat, perm: Flags)
    requires v < LEAVES
    ensures LeafWord(Phys(v, NONE), perm) == Word(v, perm) && Initialized(Word(v, perm))
  {
  }

  lemma CursorAtLeaf(mem: Mem, p: nat, leaves: seq<Word>, v: nat)
    requires Shape(mem, p, leaves) && v < LEAVES
    ensures FreshCursor(mem, p, v * PAGESIZE) == Cursor(At(p + 3 + v / ENTRIES, v % ENTRIES), 0, PTE_PWU)
    ensures p + 3 + v / ENTRIES < |mem| && |leaves| == LEAVES
  {
    LeafWalk(mem, p, leaves, v);
    LowPath(v);
  }

  lemma StoredShape(mem: Mem, p: nat, leaves: seq<Word>, v: nat, w: Word, mem': Mem)
    requires Shape(mem, p, leaves) && v < LEAVES && Initialized(w)
    requires mem' == mem[p + 3 + v / ENTRIES := mem[p + 3 + v / ENTRIES][v % ENTRIES := w]]
    ensures Shape(mem', p, leaves[v := w])
  {
    var leaves' := leaves[v := w];
    assert mem'[p + 3] == leaves'[..ENTRIES];
    assert mem'[p + 4] == leaves'[ENTRIES..];
  }

  /** `it += PAGESIZE`. */
  method NextLeaf(m: Machine, it: VmIter, v: nat, ghost leaves: seq<Word>)
    requires it.m == m && it.AtFresh() && it.va == v * PAGESIZE && v < LEAVES && Shape(m.mem, it.pt, leaves)
    modifies it
    ensures it.AtFresh() && it.va == (v + 1) * PAGESIZE
  {
    ShapeInitialized(m.mem, it.pt, leaves);
    hide *;
    it.RealFind(it.va + PAGESIZE);
  }

  method FirstLeaf(m: Machine, p: nat, ghost leaves: seq<Word>) returns (it: VmIter)
    requires Shape(m.mem, p, leaves)
    ensures fresh(it) && it.m == m && it.pt == p && it.AtFresh() && it.va == 0
  {
    ShapeInitialized(m.mem, p, leaves);
    hide Shape;
    it := new VmIter(m, p, 0);
  }

  /** The entries of the leaf tables after `init_kernel_memory` has gone through `v` pages. */
  ghost predicate AllOpen(leaves: seq<Word>, v: nat) {
    && |leaves| == LEAVES && v <= LEAVES
    && forall x :: 0 <= x < LEAVES ==> leaves[x] == if 0 < x < v then Word(x, PTE_PWU) else ZERO
  }

  /** The page-table part of `init_kernel_memory`. */
  method InitKernelMemory(m: Machine, p: nat) returns (ghost leaves: seq<Word>)
    requires m.Valid() && p + 5 <= m.npages <= LEAVES
    modifies m`mem
    ensures m.Valid() && Shape(m.mem, p, leaves) && AllOpen(leaves, m.npages)
  {
    hide m.Valid, Shape;
    BuildTables(m, p);
    leaves := NoLeaves();
    var it := FirstLeaf(m, p, leaves);
    var v := 0;
    while it.va < m.npages * PAGESIZE
      invariant v <= m.npages && it.m == m && it.pt == p && it.AtFresh() && it.va == v * PAGESIZE
      invariant m.Valid() && Shape(m.mem, p, leaves) && AllOpen(leaves, v)
      decreases m.npages - v
    {
      if it.va != 0 {
        MapLeaf(m, it, v, PTE_PWU, leaves);
        leaves := leaves[v := Word(v, PTE_PWU)];
      }
      NextLeaf(m, it, v, leaves);
      v := v + 1;
    }
  }

  /** The entries of the leaf tables after the loop of `kernel` has gone through `v` of `n` pages. */
  ghost predicate Narrowed(leaves: seq<Word>, v: nat, n: nat, console: nat) {
    && |leaves| == LEAVES && v <= n <= LEAVES
    && forall x :: 0 <= x < LEAVES ==>
         leaves[x] == if x < v then Word(x, KernelPerm(x, console)) else if 0 < x < n then Word(x, PTE_PWU) else ZERO
  }

  /** The loop of `kernel` that takes low memory, the console apart, away from users. */
  method NarrowKernelTable(m: Machine, p: nat, console: nat, ghost open: seq<Word>) returns (ghost leaves: seq<Word>)
    requires m.Valid() && m.npages <= LEAVES && Shape(m.mem, p, open) && AllOpen(open, m.npages)
    modifies m`mem
    ensures m.Valid() && Shape(m.mem, p, leaves) && Prepared(leaves, m.npages, console)
  {
    hide m.Valid, Shape;
    leaves := open;
    var it := FirstLeaf(m, p, leaves);
    var v := 0;
    while it.va < m.npages * PAGESIZE
      invariant v <= m.npages && it.m == m && it.pt == p && it.AtFresh() && it.va == v * PAGESIZE
      invariant m.Valid() && Shape(m.mem, p, leaves) && Narrowed(leaves, v, m.npages, console)
      decreases m.npages - v
    {
      var perm := NONE;
      if it.va != 0 {
        if it.va < 0x10_0000 {
          if it.va == console * PAGESIZE {
            perm := PTE_PWU;
          } else {
            perm := PTE_PW;
          }
        } else {
          perm := PTE_PWU;
        }
      }
      assert perm == KernelPerm(v, console);
      MapLeaf(m, it, v, perm, leaves);
      leaves := leaves[v := Word(v, perm)];
      NextLeaf(m, it, v, leaves);
      v := v + 1;
    }
  }
}
