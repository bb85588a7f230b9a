/** Four-level page tables as they lie in physical memory.

`Walk` is the translation from the root that the hardware performs. `Below` and `Pages`
list the page-table pages of a table in depth-first post-order; a table is a tree exactly
when that list has no repetition. The lemmas say how the list and every translation react
to the two writes that the kernel makes: linking a zeroed page, and writing a leaf entry.
 */
module PageTables {
  import opened Paging

  /** Where a walk ends: the table page and level of the entry, and the flags common to the entries above it. */
  datatype Found = Found(frame: nat, level: nat, perm: Flags)

  /** What an address translates to. */
  datatype Translation = Unmapped | Mapped(pa: nat, perm: Flags)

  function Walk(mem: Mem, f: nat, level: nat, path: Path, perm: Flags): (r: Found)
    requires level <= 3
    ensures r.level <= level
    decreases level, |mem|
  {
    var w := WordAt(mem, f, path[level]);
    if level > 0 && IsTable(w) then Walk(mem, FrameOf(w), level - 1, path, And(perm, w.flags))
    else Found(f, level, perm)
  }

  /** The entry on which a walk ends. */
  function FinalWord(mem: Mem, r: Found, path: Path): Word
    requires r.level <= 3
  {
    WordAt(mem, r.frame, path[r.level])
  }

  /** The physical address an entry gives to `va`; a large page ignores bit 12 of its entry. */
  function Physical(w: Word, level: nat, va: nat): nat
    requires level <= 3
  {
    var frame := if level > 0 then FrameOf(w) - FrameOf(w) % 2 else FrameOf(w);
    frame * PAGESIZE + va % Span(level)
  }

  function Meaning(w: Word, level: nat, perm: Flags, va: nat): Translation
    requires level <= 3
  {
    if Present(w) then Mapped(Physical(w, level, va), And(perm, w.flags)) else Unmapped
  }

  /** The walk of a canonical address from the root. */
  function RootWalk(mem: Mem, root: nat, va: nat): Found {
    Walk(mem, root, 3, PathOf(va), ALL_PERM)
  }

  /** The translation of any 64-bit address by the table rooted at `root`. */
  function Translate(mem: Mem, root: nat, va: nat): Translation {
    if Canonical(va) then
      var r := RootWalk(mem, root, va);
      Meaning(FinalWord(mem, r, PathOf(va)), r.level, r.perm, va)
    else Unmapped
  }

  // ---------------------------------------------------------------------------------------
  // The page-table pages of a table

  /** The pages strictly below entries `i`.. of table `f`, children before parents. */
  ghost function Below(mem: Mem, f: nat, level: nat, i: nat): seq<nat>
    requires level <= 3 && i <= ENTRIES
    decreases level, ENTRIES - i, 1, |mem|
  {
    if level == 0 || i == ENTRIES then []
    else Child(mem, f, level, i) + Below(mem, f, level, i + 1)
  }

  /** The pages reached through entry `i` of table `f`. */
  ghost function Child(mem: Mem, f: nat, level: nat, i: nat): seq<nat>
    requires 1 <= level <= 3 && i < ENTRIES
    decreases level, ENTRIES - i, 0, |mem|
  {
    var w := WordAt(mem, f, i);
    if IsTable(w) then Pages(mem, FrameOf(w), level - 1) else []
  }

  ghost function Pages(mem: Mem, f: nat, level: nat): seq<nat>
    requires level <= 3
    decreases level, ENTRIES + 1, 0, |mem|
  {
    Below(mem, f, level, 0) + [f]
  }

  ghost predicate NoDup(s: seq<nat>) {
    forall x :: multiset(s)[x] <= 1
  }

  /** The two memories agree on every page of `s`. */
  ghost predicate Agree(mem: Mem, mem': Mem, s: seq<nat>) {
    && |mem| == |mem'|
    && forall f :: f in s && f < |mem| ==> mem[f] == mem'[f]
  }

  lemma {:induction false} BelowFrame(mem: Mem, mem': Mem, f: nat, level: nat, i: nat)
    requires level <= 3 && i <= ENTRIES
    requires Agree(mem, mem', Below(mem, f, level, i) + [f])
    ensures Below(mem', f, level, i) == Below(mem, f, level, i)
    decreases level, ENTRIES - i
  {
    if level > 0 && i < ENTRIES {
      var w := WordAt(mem, f, i);
      assert f in Below(mem, f, level, i) + [f];
      assert WordAt(mem', f, i) == w;
      if IsTable(w) {
        forall x | x in Pages(mem, FrameOf(w), level - 1)
          ensures x in Below(mem, f, level, i) + [f]
        {
          assert x in Child(mem, f, level, i);
        }
        BelowFrame(mem, mem', FrameOf(w), level - 1, 0);
        assert Child(mem', f, level, i) == Child(mem, f, level, i);
      }
      BelowFrame(mem, mem', f, level, i + 1);
    }
  }

  /** A table's page list depends on nothing outside the list. */
  lemma PagesFrame(mem: Mem, mem': Mem, f: nat, level: nat)
    requires level <= 3
    requires Agree(mem, mem', Pages(mem, f, level))
    ensures Pages(mem', f, level) == Pages(mem, f, level)
  {
    BelowFrame(mem, mem', f, level, 0);
  }

  lemma BelowStep(mem: Mem, f: nat, level: nat, i: nat)
    requires 1 <= level <= 3 && i < ENTRIES
    ensures multiset(Below(mem, f, level, i))
              == multiset(Child(mem, f, level, i)) + multiset(Below(mem, f, level, i + 1))
  {
  }

  lemma {:induction false} ChildInBelow(mem: Mem, f: nat, level: nat, i: nat, j: nat)
    requires 1 <= level <= 3 && i <= j < ENTRIES
    ensures multiset(Child(mem, f, level, j)) <= multiset(Below(mem, f, level, i))
    decreases j - i
  {
    BelowStep(mem, f, level, i);
    if i < j {
      ChildInBelow(mem, f, level, i + 1, j);
    }
  }

  /** Two different entries contribute separately to the list. */
  lemma {:induction false} ChildrenApart(mem: Mem, f: nat, level: nat, i: nat, j: nat, k: nat)
    requires 1 <= level <= 3 && i <= j < k < ENTRIES
    ensures multiset(Child(mem, f, level, j)) + multiset(Child(mem, f, level, k)) <= multiset(Below(mem, f, level, i))
    decreases j - i
  {
    hide *;
    BelowStep(mem, f, level, i);
    var a, b := multiset(Child(mem, f, level, j)), multiset(Child(mem, f, level, k));
    if i < j {
      ChildrenApart(mem, f, level, i + 1, j, k);
      assert a + b <= multiset(Child(mem, f, level, i)) + multiset(Below(mem, f, level, i + 1));
    } else {
      ChildInBelow(mem, f, level, i + 1, k);
      assert a + b <= a + multiset(Below(mem, f, level, i + 1));
    }
  }

  /** In a tree, neither the table itself nor a sibling's page occurs below entry `j`. */
  lemma TreeSplit(mem: Mem, f: nat, level: nat, j: nat)
    requires 1 <= level <= 3 && j < ENTRIES
    requires NoDup(Pages(mem, f, level))
    ensures NoDup(Child(mem, f, level, j))
    ensures f !in Child(mem, f, level, j)
    ensures forall k, x :: 0 <= k < ENTRIES && k != j && x in Child(mem, f, level, k) ==> x !in Child(mem, f, level, j)
  {
    ChildInBelow(mem, f, level, 0, j);
    assert multiset(Pages(mem, f, level)) == multiset(Below(mem, f, level, 0)) + multiset{f};
    assert multiset(Pages(mem, f, level))[f] <= 1;
    forall x
      ensures multiset(Child(mem, f, level, j))[x] <= 1
    {
      assert multiset(Pages(mem, f, level))[x] <= 1;
    }
    forall k, x | 0 <= k < ENTRIES && k != j && x in Child(mem, f, level, k)
      ensures x !in Child(mem, f, level, j)
    {
      ChildrenApart(mem, f, level, 0, if k < j then k else j, if k < j then j else k);
      assert multiset(Pages(mem, f, level))[x] <= 1;
      assert x in multiset(Child(mem, f, level, k));
    }
  }

  // ---------------------------------------------------------------------------------------
  // Walks stay inside the list, and depend on nothing else

  lemma {:induction false} WalkInPages(mem: Mem, f: nat, level: nat, path: Path, perm: Flags)
    requires level <= 3
    ensures Walk(mem, f, level, path, perm).frame in Pages(mem, f, level)
    decreases level
  {
    var w := WordAt(mem, f, path[level]);
    if level > 0 && IsTable(w) {
      WalkInPages(mem, FrameOf(w), level - 1, path, And(perm, w.flags));
      ChildInBelow(mem, f, level, 0, path[level]);
      var x := Walk(mem, f, level, path, perm).frame;
      assert x in multiset(Child(mem, f, level, path[level]));
      assert x in multiset(Below(mem, f, level, 0));
    }
  }

  /** What agreement on a table's pages gives for one of its entries. */
  lemma AgreeStep(mem: Mem, mem': Mem, f: nat, level: nat, i: nat)
    requires level <= 3 && i < ENTRIES
    requires Agree(mem, mem', Pages(mem, f, level))
    ensures WordAt(mem', f, i) == WordAt(mem, f, i)
    ensures level > 0 && IsTable(WordAt(mem, f, i)) ==>
              Agree(mem, mem', Pages(mem, FrameOf(WordAt(mem, f, i)), level - 1))
  {
    assert f in Pages(mem, f, level);
    if level > 0 {
      ChildInBelow(mem, f, level, 0, i);
      forall x | x in Child(mem, f, level, i)
        ensures x in Pages(mem, f, level)
      {
        assert x in multiset(Child(mem, f, level, i));
        assert x in multiset(Below(mem, f, level, 0));
      }
    }
  }

  lemma {:induction false} WalkFrame(mem: Mem, mem': Mem, f: nat, level: nat, path: Path, perm: Flags)
    requires level <= 3
    requires Agree(mem, mem', Pages(mem, f, level))
    ensures Walk(mem', f, level, path, perm) == Walk(mem, f, level, path, perm)
    decreases level
  {
    AgreeStep(mem, mem', f, level, path[level]);
    var w := WordAt(mem, f, path[level]);
    if level > 0 && IsTable(w) {
      WalkFrame(mem, mem', FrameOf(w), level - 1, path, And(perm, w.flags));
    }
  }

  lemma FinalWordFrame(mem: Mem, mem': Mem, f: nat, level: nat, path: Path, perm: Flags)
    requires level <= 3
    requires Agree(mem, mem', Pages(mem, f, level))
    ensures var r := Walk(mem, f, level, path, perm); FinalWord(mem', r, path) == FinalWord(mem, r, path)
  {
    WalkInPages(mem, f, level, path, perm);
  }

  /** Two memories that agree on a table's pages give every address the same translation. */
  lemma TranslateFrame(mem: Mem, mem': Mem, root: nat)
    requires Agree(mem, mem', Pages(mem, root, 3))
    ensures Pages(mem', root, 3) == Pages(mem, root, 3)
    ensures forall va :: Translate(mem', root, va) == Translate(mem, root, va)
  {
    PagesFrame(mem, mem', root, 3);
    forall va
      ensures Translate(mem', root, va) == Translate(mem, root, va)
    {
      WalkFrame(mem, mem', root, 3, PathOf(va), ALL_PERM);
      FinalWordFrame(mem, mem', root, 3, PathOf(va), ALL_PERM);
    }
  }

  /** A walk looks only at the indices of the levels it passes. */
  lemma {:induction false} WalkPrefix(mem: Mem, f: nat, level: nat, p: Path, q: Path, perm: Flags)
    requires level <= 3
    requires forall k :: Walk(mem, f, level, p, perm).level <= k <= level ==> p[k] == q[k]
    ensures Walk(mem, f, level, q, perm) == Walk(mem, f, level, p, perm)
    decreases level
  {
    var w := WordAt(mem, f, p[level]);
    if level > 0 && IsTable(w) {
      WalkPrefix(mem, FrameOf(w), level - 1, p, q, And(perm, w.flags));
    }
  }

  /** All addresses of the block in which a walk ends have that same walk. */
  lemma WalkBlock(mem: Mem, root: nat, a: nat, b: nat)
    requires var k := RootWalk(mem, root, a).level; a / Span(k) == b / Span(k)
    ensures RootWalk(mem, root, b) == RootWalk(mem, root, a)
    ensures var r := RootWalk(mem, root, a); FinalWord(mem, r, PathOf(b)) == FinalWord(mem, r, PathOf(a))
  {
    var k := RootWalk(mem, root, a).level;
    forall j | k <= j <= 3
      ensures PathOf(a)[j] == PathOf(b)[j]
    {
      SameBlockSameIndex(a, b, k, j);
    }
    WalkPrefix(mem, root, 3, PathOf(a), PathOf(b), ALL_PERM);
  }

  // ---------------------------------------------------------------------------------------
  // Writing one entry of a tree

  /** The walk along `path` from table `g` of level `level` passes table `t` at level `l`. */
  ghost predicate OnPath(mem: Mem, g: nat, level: nat, path: Path, t: nat, l: nat)
    requires level <= 3
    decreases level
  {
    if level <= l then level == l && g == t
    else
      var w := WordAt(mem, g, path[level]);
      IsTable(w) && OnPath(mem, FrameOf(w), level - 1, path, t, l)
  }

  lemma {:induction false} OnPathInPages(mem: Mem, g: nat, level: nat, path: Path, t: nat, l: nat)
    requires level <= 3 && OnPath(mem, g, level, path, t, l)
    ensures t in Pages(mem, g, level)
    decreases level
  {
    if level > l {
      var w := WordAt(mem, g, path[level]);
      OnPathInPages(mem, FrameOf(w), level - 1, path, t, l);
      ChildInBelow(mem, g, level, 0, path[level]);
      assert t in multiset(Child(mem, g, level, path[level]));
      assert t in multiset(Below(mem, g, level, 0));
    }
  }

  lemma {:induction false} WalkOnPath(mem: Mem, g: nat, level: nat, path: Path, perm: Flags)
    requires level <= 3
    ensures var r := Walk(mem, g, level, path, perm); OnPath(mem, g, level, path, r.frame, r.level)
    decreases level
  {
    var w := WordAt(mem, g, path[level]);
    if level > 0 && IsTable(w) {
      WalkOnPath(mem, FrameOf(w), level - 1, path, And(perm, w.flags));
    }
  }

  /** Entry `i` of page `t` becomes `w`; when `l` is positive, `w` links the zeroed page `z`, which was elsewhere. */
  ghost predicate Patch(mem: Mem, mem': Mem, t: nat, i: nat, l: nat, w: Word, z: nat) {
    && |mem| == |mem'| && t < |mem|
    && i < |mem[t]| && mem'[t] == mem[t][i := w]
    && (forall f :: 0 <= f < |mem| && f != t && !(l > 0 && f == z) ==> mem'[f] == mem[f])
    && (l > 0 ==>
        z < |mem| && z != t && mem'[z] == Filled(ZERO) && IsTable(w) && FrameOf(w) == z
        && !IsTable(mem[t][i]))
  }

  lemma {:induction false} ZeroBelow(mem: Mem, f: nat, level: nat, i: nat)
    requires level <= 3 && i <= ENTRIES
    requires f < |mem| && mem[f] == Filled(ZERO)
    ensures Below(mem, f, level, i) == []
    decreases ENTRIES - i
  {
    if level > 0 && i < ENTRIES {
      ZeroBelow(mem, f, level, i + 1);
    }
  }

  lemma {:induction false} BelowSame(mem: Mem, mem': Mem, g: nat, level: nat, i: nat)
    requires 1 <= level <= 3 && i <= ENTRIES
    requires forall k :: i <= k < ENTRIES ==> Child(mem', g, level, k) == Child(mem, g, level, k)
    ensures Below(mem', g, level, i) == Below(mem, g, level, i)
    decreases ENTRIES - i
  {
    if i < ENTRIES {
      BelowSame(mem, mem', g, level, i + 1);
    }
  }

  /** A change confined to entry `j` changes the list below by what entry `j` gains. */
  lemma {:induction false} BelowChange(mem: Mem, mem': Mem, g: nat, level: nat, i: nat, j: nat, gain: multiset<nat>)
    requires 1 <= level <= 3 && i <= j < ENTRIES
    requires forall k :: 0 <= k < ENTRIES && k != j ==> Child(mem', g, level, k) == Child(mem, g, level, k)
    requires multiset(Child(mem', g, level, j)) == multiset(Child(mem, g, level, j)) + gain
    ensures multiset(Below(mem', g, level, i)) == multiset(Below(mem, g, level, i)) + gain
    decreases ENTRIES - i
  {
    BelowStep(mem, g, level, i);
    BelowStep(mem', g, level, i);
    if i < j {
      BelowChange(mem, mem', g, level, i + 1, j, gain);
    } else {
      BelowSame(mem, mem', g, level, i + 1);
    }
  }

  /** A tree in which `path` leads to the patched page, and from which the linked page was absent. */
  ghost predicate Site(mem: Mem, mem': Mem, g: nat, level: nat, path: Path, t: nat, l: nat, w: Word, z: nat)
    requires l <= level <= 3
  {
    && Patch(mem, mem', t, path[l], l, w, z)
    && OnPath(mem, g, level, path, t, l)
    && NoDup(Pages(mem, g, level))
    && (l > 0 ==> z !in Pages(mem, g, level))
  }

  lemma ChildWithin(mem: Mem, f: nat, level: nat, i: nat, x: nat)
    requires 1 <= level <= 3 && i < ENTRIES
    requires x in Child(mem, f, level, i)
    ensures x in Pages(mem, f, level)
  {
    ChildInBelow(mem, f, level, 0, i);
    assert x in multiset(Child(mem, f, level, i));
    assert x in multiset(Below(mem, f, level, 0));
  }

  /** The patched page lies on the path, so not below any other entry. */
  lemma NotBelowSibling(mem: Mem, g: nat, level: nat, path: Path, t: nat, l: nat, k: nat)
    requires l <= level && 1 <= level <= 3 && k < ENTRIES && k != path[level]
    requires OnPath(mem, g, level, path, t, l)
    requires NoDup(Pages(mem, g, level))
    ensures t !in Child(mem, g, level, k)
  {
    TreeSplit(mem, g, level, k);
    if level > l {
      OnPathInPages(mem, FrameOf(WordAt(mem, g, path[level])), level - 1, path, t, l);
      assert t in Child(mem, g, level, path[level]);
    }
  }

  /** All entries of `g` other than the one on the path, and all that lies below them, are as before. */
  lemma SiblingsUntouched(mem: Mem, mem': Mem, g: nat, level: nat, path: Path, t: nat, l: nat, w: Word, z: nat, k: nat)
    requires l <= level && 1 <= level <= 3 && k < ENTRIES && k != path[level]
    requires Site(mem, mem', g, level, path, t, l, w, z)
    ensures WordAt(mem', g, k) == WordAt(mem, g, k)
    ensures t !in Child(mem, g, level, k)
    ensures Agree(mem, mem', Child(mem, g, level, k))
  {
    NotBelowSibling(mem, g, level, path, t, l, k);
    if l > 0 && z in Child(mem, g, level, k) {
      ChildWithin(mem, g, level, k, z);
    }
    if level > l {
      PathEntry(mem, g, level, path, t, l);
    }
    assert g in Pages(mem, g, level);
  }

  /** In a tree, a table above the patched page is a different page. */
  lemma PathEntry(mem: Mem, g: nat, level: nat, path: Path, t: nat, l: nat)
    requires l < level <= 3
    requires OnPath(mem, g, level, path, t, l)
    requires NoDup(Pages(mem, g, level))
    ensures g != t
    ensures var c := FrameOf(WordAt(mem, g, path[level]));
            && OnPath(mem, c, level - 1, path, t, l)
            && NoDup(Pages(mem, c, level - 1))
            && Child(mem, g, level, path[level]) == Pages(mem, c, level - 1)
  {
    var c := FrameOf(WordAt(mem, g, path[level]));
    TreeSplit(mem, g, level, path[level]);
    OnPathInPages(mem, c, level - 1, path, t, l);
  }

  /** A patch below `g` is a patch below the next table on the path. */
  lemma SiteDown(mem: Mem, mem': Mem, g: nat, level: nat, path: Path, t: nat, l: nat, w: Word, z: nat)
    requires l < level <= 3
    requires Site(mem, mem', g, level, path, t, l, w, z)
    ensures WordAt(mem', g, path[level]) == WordAt(mem, g, path[level])
    ensures Site(mem, mem', FrameOf(WordAt(mem, g, path[level])), level - 1, path, t, l, w, z)
  {
    PathEntry(mem, g, level, path, t, l);
    var c := FrameOf(WordAt(mem, g, path[level]));
    if l > 0 && z in Pages(mem, c, level - 1) {
      ChildWithin(mem, g, level, path[level], z);
    }
    assert g in Pages(mem, g, level);
  }

  lemma ChildFrame(mem: Mem, mem': Mem, g: nat, level: nat, k: nat)
    requires 1 <= level <= 3 && k < ENTRIES
    requires WordAt(mem', g, k) == WordAt(mem, g, k)
    requires Agree(mem, mem', Child(mem, g, level, k))
    ensures Child(mem', g, level, k) == Child(mem, g, level, k)
  {
    var v := WordAt(mem, g, k);
    if IsTable(v) {
      PagesFrame(mem, mem', FrameOf(v), level - 1);
    }
  }

  /** The entry on the path gains the linked page and nothing else. */
  lemma LinkedChild(mem: Mem, mem': Mem, g: nat, level: nat, path: Path, w: Word, z: nat)
    requires 1 <= level <= 3
    requires Site(mem, mem', g, level, path, g, level, w, z)
    ensures Child(mem, g, level, path[level]) == [] && Child(mem', g, level, path[level]) == [z]
  {
    ZeroBelow(mem', z, level - 1, 0);
  }

  lemma SiblingLists(mem: Mem, mem': Mem, g: nat, level: nat, path: Path, t: nat, l: nat, w: Word, z: nat)
    requires l <= level && 1 <= level <= 3
    requires Site(mem, mem', g, level, path, t, l, w, z)
    ensures forall k :: 0 <= k < ENTRIES && k != path[level] ==> Child(mem', g, level, k) == Child(mem, g, level, k)
  {
    forall k | 0 <= k < ENTRIES && k != path[level]
      ensures Child(mem', g, level, k) == Child(mem, g, level, k)
    {
      SiblingsUntouched(mem, mem', g, level, path, t, l, w, z, k);
      ChildFrame(mem, mem', g, level, k);
    }
  }

  lemma GainThroughEntry(mem: Mem, mem': Mem, g: nat, level: nat, j: nat, gain: multiset<nat>)
    requires 1 <= level <= 3 && j < ENTRIES
    requires forall k :: 0 <= k < ENTRIES && k != j ==> Child(mem', g, level, k) == Child(mem, g, level, k)
    requires multiset(Child(mem', g, level, j)) == multiset(Child(mem, g, level, j)) + gain
    ensures multiset(Pages(mem', g, level)) == multiset(Pages(mem, g, level)) + gain
  {
    BelowChange(mem, mem', g, level, 0, j, gain);
  }

  /** Writing one entry of a tree adds exactly the page it links. */
  lemma {:induction false} PatchPages(mem: Mem, mem': Mem, g: nat, level: nat, path: Path, t: nat, l: nat, w: Word,
                                      z: nat)
    requires l <= level <= 3
    requires Site(mem, mem', g, level, path, t, l, w, z)
    ensures multiset(Pages(mem', g, level))
              == multiset(Pages(mem, g, level)) + (if l > 0 then multiset{z} else multiset{})
    decreases level
  {
    if level == 0 {
      assert Pages(mem', g, level) == Pages(mem, g, level);
    } else {
      var j := path[level];
      var gain := if l > 0 then multiset{z} else multiset{};
      SiblingLists(mem, mem', g, level, path, t, l, w, z);
      if level == l {
        LinkedChild(mem, mem', g, level, path, w, z);
      } else {
        SiteDown(mem, mem', g, level, path, t, l, w, z);
        PatchPages(mem, mem', FrameOf(WordAt(mem, g, j)), level - 1, path, t, l, w, z);
      }
      GainThroughEntry(mem, mem', g, level, j, gain);
    }
  }

  lemma WalkAway(mem: Mem, mem': Mem, f: nat, level: nat, q: Path, perm: Flags, t: nat)
    requires level <= 3
    requires Agree(mem, mem', Pages(mem, f, level))
    requires t !in Pages(mem, f, level)
    ensures Walk(mem', f, level, q, perm) == Walk(mem, f, level, q, perm)
    ensures Walk(mem, f, level, q, perm).frame != t
  {
    WalkFrame(mem, mem', f, level, q, perm);
    WalkInPages(mem, f, level, q, perm);
  }

  /** The walk along `q` after the patch: only a walk that ended on the written entry sees it. */
  ghost function WalkAfter(r: Found, path: Path, t: nat, l: nat, w: Word, z: nat, q: Path): Found
    requires l <= 3
  {
    if l > 0 && r.frame == t && q[l] == path[l] then Found(z, l - 1, And(r.perm, w.flags)) else r
  }

  /** The two paths share every index above level `l`, up to `level`. */
  ghost predicate SameAbove(p: Path, q: Path, l: nat, level: nat)
    requires level <= 3
  {
    forall k :: l < k <= level ==> p[k] == q[k]
  }

  lemma SameAboveStep(p: Path, q: Path, l: nat, level: nat)
    requires 1 <= level <= 3
    requires SameAbove(p, q, l, level - 1) && p[level] == q[level]
    ensures SameAbove(p, q, l, level)
  {
  }

  /** In a tree, a walk that ends in a page on `path` took the same way there. */
  lemma {:induction false} OneWay(mem: Mem, g: nat, level: nat, path: Path, t: nat, l: nat, q: Path, perm: Flags)
    requires l <= level <= 3
    requires OnPath(mem, g, level, path, t, l)
    requires NoDup(Pages(mem, g, level))
    requires Walk(mem, g, level, q, perm).frame == t
    ensures Walk(mem, g, level, q, perm).level == l
    ensures SameAbove(path, q, l, level)
    decreases level
  {
    var v := WordAt(mem, g, q[level]);
    if level > 0 && IsTable(v) {
      WalkInPages(mem, FrameOf(v), level - 1, q, And(perm, v.flags));
      assert t in Child(mem, g, level, q[level]);
    }
    if level == l {
      if level > 0 {
        TreeSplit(mem, g, level, q[level]);
      }
    } else {
      PathEntry(mem, g, level, path, t, l);
      if q[level] != path[level] {
        NotBelowSibling(mem, g, level, path, t, l, q[level]);
        assert false;
      }
      OneWay(mem, FrameOf(v), level - 1, path, t, l, q, And(perm, v.flags));
      SameAboveStep(path, q, l, level);
    }
  }

  /** Beside the path, the walk is what it was and does not end in the patched page. */
  lemma PatchWalkBeside(mem: Mem, mem': Mem, g: nat, level: nat, path: Path, t: nat, l: nat, w: Word, z: nat,
                        q: Path, perm: Flags)
    requires l <= level && 1 <= level <= 3 && q[level] != path[level]
    requires Site(mem, mem', g, level, path, t, l, w, z)
    ensures Walk(mem', g, level, q, perm) == Walk(mem, g, level, q, perm)
    ensures Walk(mem, g, level, q, perm).frame == t ==> level == l && g == t
  {
    var v := WordAt(mem, g, q[level]);
    SiblingsUntouched(mem, mem', g, level, path, t, l, w, z, q[level]);
    if IsTable(v) {
      WalkAway(mem, mem', FrameOf(v), level - 1, q, And(perm, v.flags), t);
    } else if level > l {
      PathEntry(mem, g, level, path, t, l);
    }
  }

  lemma {:induction false} PatchWalk(mem: Mem, mem': Mem, g: nat, level: nat, path: Path, t: nat, l: nat, w: Word,
                                     z: nat,
                                     q: Path, perm: Flags)
    requires l <= level <= 3
    requires Site(mem, mem', g, level, path, t, l, w, z)
    ensures Walk(mem', g, level, q, perm) == WalkAfter(Walk(mem, g, level, q, perm), path, t, l, w, z, q)
    decreases level
  {
    if level == 0 {
    } else if q[level] != path[level] {
      PatchWalkBeside(mem, mem', g, level, path, t, l, w, z, q, perm);
    } else if level > l {
      SiteDown(mem, mem', g, level, path, t, l, w, z);
      var v := WordAt(mem, g, q[level]);
      PatchWalk(mem, mem', FrameOf(v), level - 1, path, t, l, w, z, q, And(perm, v.flags));
    } else {
      assert WordAt(mem', z, q[level - 1]) == ZERO;
    }
  }

  /** The entry found along `q` after the patch. */
  lemma PatchFinal(mem: Mem, mem': Mem, g: nat, level: nat, path: Path, t: nat, l: nat, w: Word, z: nat, q: Path,
                   perm: Flags)
    requires l <= level <= 3
    requires Site(mem, mem', g, level, path, t, l, w, z)
    ensures var r, r' := Walk(mem, g, level, q, perm), Walk(mem', g, level, q, perm);
            if r.frame == t && q[l] == path[l]
            then r.level == l && FinalWord(mem', r', q) == (if l > 0 then ZERO else w)
            else r' == r && FinalWord(mem', r', q) == FinalWord(mem, r, q)
  {
    var r := Walk(mem, g, level, q, perm);
    PatchWalk(mem, mem', g, level, path, t, l, w, z, q, perm);
    WalkInPages(mem, g, level, q, perm);
    if r.frame == t {
      OneWay(mem, g, level, path, t, l, q, perm);
    }
  }

  /** Linking a zeroed page in place of an absent entry changes no translation. */
  lemma LinkTranslate(mem: Mem, mem': Mem, root: nat, path: Path, t: nat, l: nat, w: Word, z: nat, va: nat)
    requires 1 <= l <= 3
    requires Site(mem, mem', root, 3, path, t, l, w, z)
    requires !Present(WordAt(mem, t, path[l]))
    ensures Translate(mem', root, va) == Translate(mem, root, va)
  {
    PatchFinal(mem, mem', root, 3, path, t, l, w, z, PathOf(va), ALL_PERM);
  }

  /** A leaf page is reached along `path` only by addresses of one page. */
  lemma LeafIsOnePage(mem: Mem, root: nat, va: nat, other: nat)
    requires va < VA_END && Canonical(va) && other < VA_END && Canonical(other)
    requires NoDup(Pages(mem, root, 3))
    requires RootWalk(mem, root, va).level == 0
    ensures other / PAGESIZE == va / PAGESIZE
            <==> RootWalk(mem, root, other).frame == RootWalk(mem, root, va).frame && PathOf(other)[0] == PathOf(va)[0]
    ensures other / PAGESIZE == va / PAGESIZE ==> RootWalk(mem, root, other) == RootWalk(mem, root, va)
  {
    var path, q := PathOf(va), PathOf(other);
    var t := RootWalk(mem, root, va).frame;
    if other / PAGESIZE == va / PAGESIZE {
      WalkBlock(mem, root, va, other);
      SameBlockSameIndex(va, other, 0, 0);
    } else if RootWalk(mem, root, other).frame == t && q[0] == path[0] {
      WalkOnPath(mem, root, 3, path, ALL_PERM);
      OneWay(mem, root, 3, path, t, 0, q, ALL_PERM);
      SamePath(path, q);
      SamePathSamePage(va, other);
    }
  }

  lemma SamePath(p: Path, q: Path)
    requires SameAbove(p, q, 0, 3) && p[0] == q[0]
    ensures p == q
  {
  }

  /** Writing a leaf entry changes the translation of the addresses of one page, and of no other. */
  lemma LeafTranslate(mem: Mem, mem': Mem, root: nat, va: nat, w: Word, other: nat)
    requires va < VA_END && Canonical(va) && other < VA_END
    requires RootWalk(mem, root, va).level == 0
    requires Site(mem, mem', root, 3, PathOf(va), RootWalk(mem, root, va).frame, 0, w, 0)
    ensures RootWalk(mem', root, va) == RootWalk(mem, root, va)
    ensures Translate(mem', root, other)
            == if Canonical(other) && other / PAGESIZE == va / PAGESIZE
               then Meaning(w, 0, RootWalk(mem, root, va).perm, other)
               else Translate(mem, root, other)
  {
    var t := RootWalk(mem, root, va).frame;
    PatchWalk(mem, mem', root, 3, PathOf(va), t, 0, w, 0, PathOf(va), ALL_PERM);
    if Canonical(other) {
      PatchWalk(mem, mem', root, 3, PathOf(va), t, 0, w, 0, PathOf(other), ALL_PERM);
      PatchFinal(mem, mem', root, 3, PathOf(va), t, 0, w, 0, PathOf(other), ALL_PERM);
      LeafIsOnePage(mem, root, va, other);
    }
  }
}
