/** How deep walks lead, and how many table pages a set of mappings needs.

A walk ends at level `l` because its tables stop there. The blocks, at levels 1 to 3, that have a table of
their own are the tables that exist below the root; mapping a page adds the blocks of that page.
 */
module Depths {
  import opened Paging
  import opened PageTables

  /** The level at which the walk of an address ends: how many tables are missing on the way to its page. */
  function Level(mem: Mem, root: nat, va: nat): (l: nat)
    ensures l <= 3
  {
    RootWalk(mem, root, va).level
  }

  /** A canonical 64-bit address. */
  predicate Address(x: nat) {
    x < VA_END && Canonical(x)
  }

  /** The walks of all addresses end at the levels at which they ended before. */
  ghost predicate SameLevels(mem: Mem, mem': Mem, root: nat) {
    forall x: nat :: Address(x) ==> Level(mem', root, x) == Level(mem, root, x)
  }

  lemma SameLevelsNow(mem: Mem, root: nat)
    ensures SameLevels(mem, mem, root)
  {
  }

  /** The tables on the way to `va` have been built down to level `lo`: a walk gets below level `k` if it did before,
      or if it shares the level-`k` block of `va`. */
  ghost predicate Extended(mem: Mem, mem': Mem, root: nat, va: nat, lo: nat) {
    forall x: nat, k: nat :: Address(x) && 1 <= k <= 3 ==> DeeperAt(mem, mem', root, va, lo, x, k)
  }

  ghost predicate DeeperAt(mem: Mem, mem': Mem, root: nat, va: nat, lo: nat, x: nat, k: nat)
    requires 1 <= k <= 3
  {
    Level(mem', root, x) < k <==> Level(mem, root, x) < k || (lo < k && x / Span(k) == va / Span(k))
  }

  /** Walks along paths that agree from level `k` up get below level `k` together. */
  lemma {:induction false} DeeperTogether(mem: Mem, g: nat, level: nat, p: Path, q: Path, perm: Flags, k: nat)
    requires 1 <= k <= level <= 3 && (forall j :: k <= j <= level ==> p[j] == q[j])
               && Walk(mem, g, level, p, perm).level < k
    ensures Walk(mem, g, level, q, perm).level < k
    decreases level
  {
    var w := WordAt(mem, g, p[level]);
    if k < level {
      DeeperTogether(mem, FrameOf(w), level - 1, p, q, And(perm, w.flags), k);
    }
  }

  lemma LevelsShared(mem: Mem, root: nat, a: nat, b: nat, k: nat)
    requires 1 <= k <= 3 && a / Span(k) == b / Span(k) && Level(mem, root, a) < k
    ensures Level(mem, root, b) < k
  {
    forall j | k <= j <= 3
      ensures PathOf(a)[j] == PathOf(b)[j]
    {
      SameBlockSameIndex(a, b, k, j);
    }
    DeeperTogether(mem, root, 3, PathOf(a), PathOf(b), ALL_PERM, k);
  }

  /** Before anything is built, the tables on the way to `va` are there down to where its walk ends. */
  lemma ExtendedNow(mem: Mem, root: nat, va: nat)
    ensures Extended(mem, mem, root, va, Level(mem, root, va))
  {
    forall x: nat, k: nat | Address(x) && 1 <= k <= 3
      ensures DeeperAt(mem, mem, root, va, Level(mem, root, va), x, k)
    {
      if Level(mem, root, va) < k && x / Span(k) == va / Span(k) {
        LevelsShared(mem, root, va, x, k);
      }
    }
  }

  /** Two addresses whose paths agree from level `l` up lie in one block of that level. */
  lemma SameIndicesSameBlock(a: nat, b: nat, l: nat)
    requires Address(a) && Address(b) && l <= 3 && forall j :: l <= j <= 3 ==> PathOf(a)[j] == PathOf(b)[j]
    ensures a / Span(l) == b / Span(l)
  {
    assert PathOf(a)[3] == PathOf(b)[3];
    TopBlock(a);
    TopBlock(b);
    if l <= 2 {
      assert PathOf(a)[2] == PathOf(b)[2];
      SameIndexSameBlock(a, b, 2);
    }
    if l <= 1 {
      assert PathOf(a)[1] == PathOf(b)[1];
      SameIndexSameBlock(a, b, 1);
    }
    if l == 0 {
      assert PathOf(a)[0] == PathOf(b)[0];
      SameIndexSameBlock(a, b, 0);
    }
  }

  /** A walk meets the entry at which that of `va` ends exactly if the address lies in the block of that entry. */
  lemma MeetsIffShares(mem: Mem, root: nat, va: nat, x: nat)
    requires Address(va) && Address(x) && NoDup(Pages(mem, root, 3))
    ensures var r, l := RootWalk(mem, root, va), Level(mem, root, va);
            RootWalk(mem, root, x).frame == r.frame && PathOf(x)[l] == PathOf(va)[l] <==> x / Span(l) == va / Span(l)
    ensures var l := Level(mem, root, va); x / Span(l) == va / Span(l) ==> Level(mem, root, x) == l
  {
    var r, l := RootWalk(mem, root, va), Level(mem, root, va);
    if x / Span(l) == va / Span(l) {
      WalkBlock(mem, root, va, x);
      SameBlockSameIndex(va, x, l, l);
    } else if RootWalk(mem, root, x).frame == r.frame && PathOf(x)[l] == PathOf(va)[l] {
      WalkOnPath(mem, root, 3, PathOf(va), ALL_PERM);
      OneWay(mem, root, 3, PathOf(va), r.frame, l, PathOf(x), ALL_PERM);
      assert forall j :: l <= j <= 3 ==> PathOf(x)[j] == PathOf(va)[j];
      SameIndicesSameBlock(x, va, l);
    }
  }

  /** Linking a table at the end of the walk of `va` takes the walks of its block one level down, and no other. */
  lemma LinkLevel(mem: Mem, mem': Mem, root: nat, va: nat, w: Word, z: nat, x: nat)
    requires Address(va) && Address(x) && Level(mem, root, va) > 0
    requires Site(mem, mem', root, 3, PathOf(va), RootWalk(mem, root, va).frame, Level(mem, root, va), w, z)
    ensures var l := Level(mem, root, va);
            Level(mem', root, x) == if x / Span(l) == va / Span(l) then l - 1 else Level(mem, root, x)
  {
    var r, l := RootWalk(mem, root, va), Level(mem, root, va);
    PatchWalk(mem, mem', root, 3, PathOf(va), r.frame, l, w, z, PathOf(x), ALL_PERM);
    MeetsIffShares(mem, root, va, x);
  }

  lemma LinkExtends(mem: Mem, mem': Mem, root: nat, va: nat, w: Word, z: nat)
    requires Address(va) && Level(mem, root, va) > 0
    requires Site(mem, mem', root, 3, PathOf(va), RootWalk(mem, root, va).frame, Level(mem, root, va), w, z)
    ensures Extended(mem, mem', root, va, Level(mem, root, va) - 1)
  {
    var lo: nat := Level(mem, root, va) - 1;
    hide Level, Site, DeeperAt, Span, RootWalk;
    forall x: nat, k: nat | Address(x) && 1 <= k <= 3
      ensures DeeperAt(mem, mem', root, va, lo, x, k)
    {
      LinkDeeper(mem, mem', root, va, w, z, x, k);
    }
  }

  lemma LinkDeeper(mem: Mem, mem': Mem, root: nat, va: nat, w: Word, z: nat, x: nat, k: nat)
    requires Address(va) && Level(mem, root, va) > 0 && Address(x) && 1 <= k <= 3
    requires Site(mem, mem', root, 3, PathOf(va), RootWalk(mem, root, va).frame, Level(mem, root, va), w, z)
    ensures DeeperAt(mem, mem', root, va, Level(mem, root, va) - 1, x, k)
  {
    var l := Level(mem, root, va);
    ExtendedNow(mem, root, va);
    assert DeeperAt(mem, mem, root, va, l, x, k);
    LinkLevel(mem, mem', root, va, w, z, x);
    MeetsIffShares(mem, root, va, x);
    hide Level, Site, DeeperAt, Span, RootWalk;
    LinkedDeeper(mem, mem, mem', root, va, l, x, k);
  }

  lemma LinkedDeeper(mem0: Mem, mem: Mem, mem': Mem, root: nat, va: nat, l: nat, x: nat, k: nat)
    requires Address(x) && Address(va) && 1 <= k <= 3 && 1 <= l <= 3 && l == Level(mem, root, va)
               && DeeperAt(mem0, mem, root, va, l, x, k)
    requires Level(mem', root, x) == if x / Span(l) == va / Span(l) then l - 1 else Level(mem, root, x)
    requires x / Span(l) == va / Span(l) ==> Level(mem, root, x) == l
    ensures DeeperAt(mem0, mem', root, va, l - 1, x, k)
  {
    if x / Span(l) == va / Span(l) && l <= k {
      SameBlockSameIndex(x, va, l, k);
    }
  }

  /** Writing a leaf entry changes no level. */
  lemma LeafKeepsLevels(mem: Mem, mem': Mem, root: nat, va: nat, w: Word)
    requires Level(mem, root, va) == 0
    requires Site(mem, mem', root, 3, PathOf(va), RootWalk(mem, root, va).frame, 0, w, 0)
    ensures SameLevels(mem, mem', root)
  {
    forall x: nat | Address(x)
      ensures Level(mem', root, x) == Level(mem, root, x)
    {
      PatchWalk(mem, mem', root, 3, PathOf(va), RootWalk(mem, root, va).frame, 0, w, 0, PathOf(x), ALL_PERM);
    }
  }

  lemma LevelsFrame(mem: Mem, mem': Mem, root: nat)
    requires Agree(mem, mem', Pages(mem, root, 3))
    ensures SameLevels(mem, mem', root)
  {
    forall x: nat | Address(x)
      ensures Level(mem', root, x) == Level(mem, root, x)
    {
      WalkFrame(mem, mem', root, 3, PathOf(x), ALL_PERM);
    }
  }

  lemma ExtendedSame(mem0: Mem, mem: Mem, mem': Mem, root: nat, va: nat, lo: nat)
    requires Extended(mem0, mem, root, va, lo) && SameLevels(mem, mem', root)
    ensures Extended(mem0, mem', root, va, lo)
  {
    forall x: nat, k: nat | Address(x) && 1 <= k <= 3
      ensures DeeperAt(mem0, mem', root, va, lo, x, k)
    {
      assert DeeperAt(mem0, mem, root, va, lo, x, k);
    }
  }

  lemma ExtendedOn(mem0: Mem, mem1: Mem, mem2: Mem, root: nat, va: nat, lo1: nat, lo2: nat)
    requires Extended(mem0, mem1, root, va, lo1) && Extended(mem1, mem2, root, va, lo2) && lo2 <= lo1
    ensures Extended(mem0, mem2, root, va, lo2)
  {
    forall x: nat, k: nat | Address(x) && 1 <= k <= 3
      ensures DeeperAt(mem0, mem2, root, va, lo2, x, k)
    {
      assert DeeperAt(mem0, mem1, root, va, lo1, x, k) && DeeperAt(mem1, mem2, root, va, lo2, x, k);
    }
  }

  /** The same addresses have all their tables. */
  ghost predicate SameLeaves(mem: Mem, mem': Mem, root: nat) {
    forall x: nat :: Address(x) ==> (Level(mem', root, x) == 0 <==> Level(mem, root, x) == 0)
  }

  /** Tables that do not reach down to a page complete no way. */
  lemma PartialKeepsLeaves(mem: Mem, mem': Mem, root: nat, va: nat, lo: nat)
    requires Extended(mem, mem', root, va, lo) && lo >= 1
    ensures SameLeaves(mem, mem', root)
  {
    forall x: nat | Address(x)
      ensures Level(mem', root, x) == 0 <==> Level(mem, root, x) == 0
    {
      assert DeeperAt(mem, mem', root, va, lo, x, 1);
    }
  }

  /** Where no table was missing, none is completed. */
  lemma CompleteKeepsLeaves(mem: Mem, mem': Mem, root: nat, va: nat)
    requires Extended(mem, mem', root, va, 0) && Level(mem, root, va) == 0
    ensures SameLeaves(mem, mem', root)
  {
    forall x: nat | Address(x)
      ensures Level(mem', root, x) == 0 <==> Level(mem, root, x) == 0
    {
      assert DeeperAt(mem, mem', root, va, 0, x, 1);
      if x / Span(1) == va / Span(1) {
        LevelsShared(mem, root, va, x, 1);
      }
    }
  }

  /** What an attempt to map `va` with permissions `p` does to the levels, when it links `n` tables: with no permissions
      nothing; else it links all that are missing, or, if it fails, not all of them. */
  ghost predicate Deepened(mem: Mem, mem': Mem, root: nat, va: nat, n: nat, p: Flags, ok: bool) {
    if p == NONE then ok && n == 0 && SameLevels(mem, mem', root)
    else if ok then n == Level(mem, root, va) && Extended(mem, mem', root, va, 0)
    else n < Level(mem, root, va) && SameLeaves(mem, mem', root)
  }

  // ---------------------------------------------------------------------------------------
  // The blocks that have tables

  /** A block of level 1, 2 or 3, by its number. */
  datatype Block = Block(level: nat, number: nat)

  /** The blocks that need a table for `va` to be mapped. */
  function Touch(va: nat): set<Block> {
    {Block(1, va / Span(1)), Block(2, va / Span(2)), Block(3, va / Span(3))}
  }

  /** The tables below `root` are those of the blocks `tables`. */
  ghost predicate Mirrors(mem: Mem, root: nat, tables: set<Block>) {
    forall x: nat, k: nat :: Address(x) && 1 <= k <= 3 ==> MirrorsAt(mem, root, tables, x, k)
  }

  ghost predicate MirrorsAt(mem: Mem, root: nat, tables: set<Block>, x: nat, k: nat)
    requires 1 <= k <= 3
  {
    Block(k, x / Span(k)) in tables <==> Level(mem, root, x) < k
  }

  /** Of the tables below `root`, those of level 0 are the ones of the level-1 blocks in `tables`. */
  ghost predicate LeavesMirror(mem: Mem, root: nat, tables: set<Block>) {
    forall x: nat :: Address(x) ==> (HasLeaf(tables, x) <==> Level(mem, root, x) == 0)
  }

  /** All tables on the way to `va` exist. */
  predicate HasLeaf(tables: set<Block>, va: nat) {
    Block(1, va / Span(1)) in tables
  }

  lemma MirrorsLeaves(mem: Mem, root: nat, tables: set<Block>)
    requires Mirrors(mem, root, tables)
    ensures LeavesMirror(mem, root, tables)
  {
    forall x: nat | Address(x)
      ensures HasLeaf(tables, x) <==> Level(mem, root, x) == 0
    {
      assert MirrorsAt(mem, root, tables, x, 1);
    }
  }

  lemma LeavesSame(mem: Mem, mem': Mem, root: nat, tables: set<Block>)
    requires LeavesMirror(mem, root, tables) && SameLeaves(mem, mem', root)
    ensures LeavesMirror(mem', root, tables)
  {
  }

  lemma SameLevelsLeaves(mem: Mem, mem': Mem, root: nat)
    requires SameLevels(mem, mem', root)
    ensures SameLeaves(mem, mem', root)
  {
  }

  /** How many tables are missing on the way to `va`. */
  function Missing(tables: set<Block>, va: nat): nat {
    |Touch(va) - tables|
  }

  lemma TouchSize(tables: set<Block>, va: nat)
    ensures |tables + Touch(va)| == |tables| + Missing(tables, va)
  {
    assert tables + Touch(va) == tables + (Touch(va) - tables);
  }

  lemma MissingIsLevel(mem: Mem, root: nat, tables: set<Block>, va: nat)
    requires Mirrors(mem, root, tables) && Address(va)
    ensures Missing(tables, va) == Level(mem, root, va)
  {
    var l := Level(mem, root, va);
    assert MirrorsAt(mem, root, tables, va, 1) && MirrorsAt(mem, root, tables, va, 2)
        && MirrorsAt(mem, root, tables, va, 3);
    var b1, b2, b3 := Block(1, va / Span(1)), Block(2, va / Span(2)), Block(3, va / Span(3));
    if l == 0 {
      assert Touch(va) - tables == {};
    } else if l == 1 {
      assert Touch(va) - tables == {b1};
    } else if l == 2 {
      assert Touch(va) - tables == {b1, b2};
    } else {
      assert Touch(va) - tables == {b1, b2, b3};
    }
  }

  /** Mapping `va` adds its blocks. */
  lemma MirrorsMore(mem: Mem, mem': Mem, root: nat, tables: set<Block>, va: nat)
    requires Mirrors(mem, root, tables) && Extended(mem, mem', root, va, 0)
    ensures Mirrors(mem', root, tables + Touch(va))
  {
    forall x: nat, k: nat | Address(x) && 1 <= k <= 3
      ensures MirrorsAt(mem', root, tables + Touch(va), x, k)
    {
      assert MirrorsAt(mem, root, tables, x, k) && DeeperAt(mem, mem', root, va, 0, x, k);
      assert Block(k, x / Span(k)) in Touch(va) <==> x / Span(k) == va / Span(k);
    }
  }

  lemma MirrorsSame(mem: Mem, mem': Mem, root: nat, tables: set<Block>)
    requires Mirrors(mem, root, tables) && SameLevels(mem, mem', root)
    ensures Mirrors(mem', root, tables)
  {
    forall x: nat, k: nat | Address(x) && 1 <= k <= 3
      ensures MirrorsAt(mem', root, tables, x, k)
    {
      assert MirrorsAt(mem, root, tables, x, k);
    }
  }

  /** A zeroed root page has no tables below it. */
  lemma MirrorsEmpty(mem: Mem, root: nat)
    requires root < |mem| && mem[root] == Filled(ZERO)
    ensures Mirrors(mem, root, {})
  {
    forall x: nat, k: nat | Address(x) && 1 <= k <= 3
      ensures MirrorsAt(mem, root, {}, x, k)
    {
      assert WordAt(mem, root, PathOf(x)[3]) == ZERO;
    }
  }
}
