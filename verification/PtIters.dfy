/** `ptiter`: the iterator over the page-table pages of a table, used to free a table while walking it.

The walk is specified against a snapshot of memory. `pending` is what is still to be yielded,
in post-order; the iterator needs memory to agree with the snapshot only on `pending` and
on the root, so the pages already yielded may hold anything.
 */
module PtIters {
  import opened Arithmetic
  import opened Paging
  import opened PageTables
  import opened Allocator

  /** The table page of level `l` on the way along `path`. */
  ghost function TableOn(mem: Mem, g: nat, level: nat, path: Path, l: nat): nat
    requires level <= 3
    decreases level, |mem|
  {
    if level <= l then g else TableOn(mem, FrameOf(WordAt(mem, g, path[level])), level - 1, path, l)
  }

  /** All entries from `level` down to `l` + 1 on the way along `path` lead to tables. */
  ghost predicate Leads(mem: Mem, g: nat, level: nat, path: Path, l: nat)
    requires level <= 3
    decreases level, |mem|
  {
    level <= l
        || (IsTable(WordAt(mem, g, path[level]))
            && Leads(mem, FrameOf(WordAt(mem, g, path[level])), level - 1, path, l))
  }

  /** The pages below table `f` from the entry on `path` onward. */
  ghost function From(mem: Mem, f: nat, level: nat, path: Path): seq<nat>
    requires level <= 3
    decreases level, |mem|
  {
    if level == 0 then []
    else
      var w := WordAt(mem, f, path[level]);
      (if IsTable(w) then From(mem, FrameOf(w), level - 1, path) + [FrameOf(w)] else [])
      + Below(mem, f, level, path[level] + 1)
  }

  /** What follows once the level-`l` table on `path` is exhausted: the table itself, then the rest of its parent. */
  ghost function Tail(mem: Mem, root: nat, path: Path, l: nat): seq<nat>
    requires l <= 3
    decreases 3 - l, |mem|
  {
    if l == 3 then []
    else
      [TableOn(mem, root, 3, path, l)]
      + (Below(mem, TableOn(mem, root, 3, path, l + 1), l + 1, path[l + 1] + 1) + Tail(mem, root, path, l + 1))
  }

  /** What follows the entry of level `l` on `path`. */
  ghost function After(mem: Mem, root: nat, path: Path, l: nat): seq<nat>
    requires l <= 3
  {
    Below(mem, TableOn(mem, root, 3, path, l), l, path[l] + 1) + Tail(mem, root, path, l)
  }

  lemma {:induction false} TableOnStep(mem: Mem, g: nat, level: nat, path: Path, l: nat)
    requires l < level <= 3
    ensures TableOn(mem, g, level, path, l) == FrameOf(WordAt(mem, TableOn(mem, g, level, path, l + 1), path[l + 1]))
    ensures Leads(mem, g, level, path, l)
            <==>
                Leads(mem, g, level, path, l + 1)
                && IsTable(WordAt(mem, TableOn(mem, g, level, path, l + 1), path[l + 1]))
    decreases level
  {
    if level > l + 1 {
      TableOnStep(mem, FrameOf(WordAt(mem, g, path[level])), level - 1, path, l);
    }
  }

  /** The way down to level `l` depends only on the indices above `l`. */
  lemma {:induction false} SameWay(mem: Mem, g: nat, level: nat, p: Path, q: Path, l: nat)
    requires l <= level <= 3 && SameAbove(p, q, l, level)
    ensures TableOn(mem, g, level, q, l) == TableOn(mem, g, level, p, l)
    ensures Leads(mem, g, level, q, l) == Leads(mem, g, level, p, l)
    decreases level
  {
    if level > l {
      assert p[level] == q[level];
      SameWay(mem, FrameOf(WordAt(mem, g, p[level])), level - 1, p, q, l);
    }
  }

  lemma {:induction false} SameTail(mem: Mem, root: nat, p: Path, q: Path, l: nat)
    requires l <= 3 && SameAbove(p, q, l, 3)
    ensures Tail(mem, root, q, l) == Tail(mem, root, p, l)
    decreases 3 - l
  {
    if l < 3 {
      SameWay(mem, root, 3, p, q, l);
      SameWay(mem, root, 3, p, q, l + 1);
      SameTail(mem, root, p, q, l + 1);
    }
  }

  /** From index zero at every lower level, "onward" is everything. */
  lemma {:induction false} FromZero(mem: Mem, f: nat, level: nat, path: Path)
    requires level <= 3 && forall k :: 0 <= k < level ==> path[k] == 0
    ensures From(mem, f, level, path) == Below(mem, f, level, path[level])
    decreases level
  {
    if level > 0 {
      var w := WordAt(mem, f, path[level]);
      FromZero(mem, FrameOf(w), level - 1, path);
      assert path[level - 1] == 0;
      assert Below(mem, f, level, path[level])
          == Child(mem, f, level, path[level]) + Below(mem, f, level, path[level] + 1);
    }
  }

  /** A table on the way is still pending, or is the root. */
  lemma {:induction false} TableInTail(mem: Mem, root: nat, path: Path, l: nat, k: nat)
    requires l <= k <= 3
    ensures TableOn(mem, root, 3, path, k) in Tail(mem, root, path, l) + [root]
    decreases k - l
  {
    if l < k {
      TableInTail(mem, root, path, l + 1, k);
    }
  }

  lemma LowerIndexZero(q: nat, l: nat, k: nat)
    requires k < l <= 3
    ensures Index(q * Span(l), k) == 0
  {
    if k == l - 1 {
      WholeBlocks(q, Span(l), Span(k), 1);
    } else if k == l - 2 {
      WholeBlocks(q, Span(l), Span(k), 0x200);
    } else {
      WholeBlocks(q, Span(l), Span(k), 0x4_0000);
    }
  }

  /** A multiple of a span that holds `512 * c` smaller spans has index zero among those. */
  lemma WholeBlocks(q: nat, big: nat, small: nat, c: nat)
    requires 0 < small && big == 512 * c * small
    ensures q * big / small % 512 == 0
  {
    Regroup(q, c, small);
    MulDivCancel(q * c * 512, small);
  }

  lemma Regroup(q: nat, c: nat, small: nat)
    ensures q * (512 * c * small) == q * c * 512 * small
  {
  }

  lemma MulDivCancel(n: nat, d: nat)
    requires 0 < d
    ensures n * d / d == n
  {
    Division(n, d, 0);
  }

  lemma NextBlock(va: nat, l: nat)
    requires 1 <= l <= 3
    ensures var next := (va / Span(l) + 1) * Span(l);
            && next / Span(l) == va / Span(l) + 1 && va < next
            && (next / Span(l + 1) == va / Span(l + 1) <==> Index(va, l) < ENTRIES - 1)
            && (Index(va, l) < ENTRIES - 1 ==> Index(next, l) == Index(va, l) + 1)
  {
    var q := va / Span(l);
    var next := (q + 1) * Span(l);
    if l == 1 {
      assert (q + 1) * 0x20_0000 / 0x20_0000 == q + 1;
    } else if l == 2 {
      assert (q + 1) * 0x4000_0000 / 0x4000_0000 == q + 1;
    } else {
      assert (q + 1) * 0x80_0000_0000 / 0x80_0000_0000 == q + 1;
    }
    BlocksNest(va, l);
    BlocksNest(next, l);
  }

  /** Stepping to the next entry of a level-`l` table. */
  lemma NextEntry(va: nat, l: nat)
    requires va < VA_NONCANONEND && 1 <= l <= 3 && Index(va, l) < ENTRIES - 1
    ensures var next := (va / Span(l) + 1) * Span(l);
            && next < VA_NONCANONEND
            && SameAbove(PathOf(va), PathOf(next), l, 3)
            && forall k :: 0 <= k < l ==> PathOf(next)[k] == 0
  {
    var next := (va / Span(l) + 1) * Span(l);
    NextBlock(va, l);
    SameHigherBlock(va, next, l + 1);
    forall k | 0 <= k < l
      ensures PathOf(next)[k] == 0
    {
      LowerIndexZero(va / Span(l) + 1, l, k);
    }
  }

  lemma SameHigherBlock(a: nat, b: nat, l: nat)
    requires 1 <= l <= 4 && a / Span(l) == b / Span(l)
    ensures SameAbove(PathOf(a), PathOf(b), l - 1, 3)
    ensures a < VA_NONCANONEND ==> b < VA_NONCANONEND
  {
    forall k | l <= k <= 3
      ensures PathOf(a)[k] == PathOf(b)[k]
    {
      SameBlockSameIndex(a, b, l, k);
    }
    if l < 4 {
      SameBlockSameIndex(a, b, l, 3);
      BlocksNest(a, 3);
      BlocksNest(b, 3);
    }
    assert Span(4) == VA_NONCANONEND;
  }

  lemma {:induction false} LeadsDown(mem: Mem, g: nat, level: nat, path: Path, l: nat, k: nat)
    requires l <= k <= level <= 3 && Leads(mem, g, level, path, l)
    ensures Leads(mem, g, level, path, k)
    decreases k - l
  {
    if l < k {
      TableOnStep(mem, g, level, path, l);
      LeadsDown(mem, g, level, path, l + 1, k);
    }
  }

  /** What is to be yielded from the entry of level `l` on `path`, that entry included unless skipped. */
  ghost function Todo(mem: Mem, root: nat, path: Path, l: nat, skip: bool): seq<nat>
    requires l <= 3
  {
    if skip then After(mem, root, path, l)
    else From(mem, TableOn(mem, root, 3, path, l), l, path) + Tail(mem, root, path, l)
  }

  /** Descending through a table entry changes nothing in what is to come. */
  lemma TodoDown(mem: Mem, root: nat, path: Path, l: nat)
    requires 1 <= l <= 3
    requires IsTable(WordAt(mem, TableOn(mem, root, 3, path, l), path[l]))
    ensures Todo(mem, root, path, l, false) == Todo(mem, root, path, l - 1, false)
  {
    TableOnStep(mem, root, 3, path, l - 1);
    var t, c := TableOn(mem, root, 3, path, l), TableOn(mem, root, 3, path, l - 1);
    var rest := Below(mem, t, l, path[l] + 1);
    assert From(mem, t, l, path) == From(mem, c, l - 1, path) + [c] + rest;
    assert Tail(mem, root, path, l - 1) == [c] + (rest + Tail(mem, root, path, l));
    assert (From(mem, c, l - 1, path) + [c] + rest) + Tail(mem, root, path, l)
        == From(mem, c, l - 1, path) + ([c] + (rest + Tail(mem, root, path, l)));
  }

  /** An entry that is not a table adds nothing. */
  lemma TodoSkip(mem: Mem, root: nat, path: Path, l: nat)
    requires 1 <= l <= 3
    requires !IsTable(WordAt(mem, TableOn(mem, root, 3, path, l), path[l]))
    ensures Todo(mem, root, path, l, false) == Todo(mem, root, path, l, true)
  {
  }

  /** A finished table is followed by what comes after the entry that leads to it. */
  lemma TailYield(mem: Mem, root: nat, path: Path, l: nat)
    requires 1 <= l <= 3
    ensures Tail(mem, root, path, l - 1) == [TableOn(mem, root, 3, path, l - 1)] + After(mem, root, path, l)
  {
  }

  /** So is a leaf table, which has nothing below it. */
  lemma LeafYield(mem: Mem, root: nat, path: Path)
    requires IsTable(WordAt(mem, TableOn(mem, root, 3, path, 1), path[1]))
    ensures Todo(mem, root, path, 1, false) == [TableOn(mem, root, 3, path, 0)] + After(mem, root, path, 1)
  {
    TodoDown(mem, root, path, 1);
    TailYield(mem, root, path, 1);
    assert From(mem, TableOn(mem, root, 3, path, 0), 0, path) == [];
  }

  /** The path `q` goes to the entry of level `l` after the one of `p`, in the same table. */
  ghost predicate Successor(p: Path, q: Path, l: nat)
    requires l <= 3
  {
    q[l] == p[l] + 1 && SameAbove(p, q, l, 3) && forall k :: 0 <= k < l ==> q[k] == 0
  }

  lemma TodoNext(mem: Mem, root: nat, p: Path, q: Path, l: nat)
    requires 1 <= l <= 3 && Successor(p, q, l)
    ensures Todo(mem, root, q, l, false) == Todo(mem, root, p, l, true)
    ensures TableOn(mem, root, 3, q, l) == TableOn(mem, root, 3, p, l)
    ensures Leads(mem, root, 3, q, l) == Leads(mem, root, 3, p, l)
  {
    SameWay(mem, root, 3, p, q, l);
    SameTail(mem, root, p, q, l);
    FromZero(mem, TableOn(mem, root, 3, q, l), l, q);
  }

  /** The address `(va | pageoffmask(l)) + 1`, and whether it leaves the level-`l` table of `va`. */
  method StepAddress(va: nat, l: nat) returns (next: nat, last: bool)
    requires va < VA_NONCANONEND && 1 <= l <= 3
    ensures last <==> PathOf(va)[l] == ENTRIES - 1
    ensures !last ==> va < next < VA_NONCANONEND && Successor(PathOf(va), PathOf(next), l)
  {
    hide *;
    next := BitOr(va, PageOffMask(l)) + 1;
    last := BitAndNot(BitXor(next, va), PageOffMask(l + 1)) != 0;
    OrMaskIsBlockEnd(va, l);
    XorTestIsBlockTest(next, va, l + 1);
    AfterBlock(va, l);
  }

  lemma AfterBlock(va: nat, l: nat)
    requires va < VA_NONCANONEND && 1 <= l <= 3
    ensures var next := (va / Span(l) + 1) * Span(l);
            && (next / Span(l + 1) == va / Span(l + 1) <==> PathOf(va)[l] != ENTRIES - 1)
            && (next / Span(l + 1) == va / Span(l + 1) ==>
                va < next < VA_NONCANONEND
                && Successor(PathOf(va), PathOf(next), l))
  {
    NextBlock(va, l);
    if PathOf(va)[l] != ENTRIES - 1 {
      NextEntry(va, l);
    }
  }

  class PtIter {
    const m: Machine
    const pt: nat
    var frame: nat
    var index: nat
    var level: nat
    var va: nat
    ghost var snap: Mem
    ghost var pending: seq<nat>

    predicate Active()
      reads this
    {
      va < VA_NONCANONEND
    }

    /** The page-table page that the iterator is at. */
    function Pa(): nat
      reads this, m
    {
      FrameOf(WordAt(m.mem, frame, index))
    }

    /** The iterator stands at an entry of the way along `va`. */
    ghost predicate Placed()
      reads this
    {
      && 1 <= level <= 3 && va < VA_NONCANONEND
      && frame == TableOn(snap, pt, 3, PathOf(va), level) && index == PathOf(va)[level]
      && Leads(snap, pt, 3, PathOf(va), level)
    }

    ghost predicate Valid()
      reads this
    {
      if Active() then
        && Placed()
        && Leads(snap, pt, 3, PathOf(va), level - 1)
        && pending == After(snap, pt, PathOf(va), level)
      else pending == []
    }

    /** Memory has kept what the iterator still has to read. */
    ghost predicate InSync()
      reads this, m
    {
      Agree(snap, m.mem, pending + [pt])
    }

    /** Starts at address `start` (`go`). */
    constructor (m: Machine, pt: nat, start: nat)
      requires start < VA_NONCANONEND
      ensures this.m == m && this.pt == pt && snap == m.mem
      ensures Valid() && InSync()
      ensures var all := From(m.mem, pt, 3, PathOf(start));
              if all == [] then !Active() else Active() && all == [Pa()] + pending
    {
      this.m := m;
      this.pt := pt;
      this.level := 3;
      this.frame := pt;
      this.index := PathOf(start)[3];
      this.va := start;
      this.snap := m.mem;
      this.pending := From(m.mem, pt, 3, PathOf(start));
      new;
      Down(false);
    }

    /** Moves to the next page-table page in post-order. */
    method Next()
      requires Active() && Valid() && InSync()
      modifies this
      ensures Valid() && InSync() && snap == old(snap)
      ensures if old(pending) == [] then !Active() else Active() && old(pending) == [Pa()] + pending
    {
      Down(true);
    }

    method Down(skipFirst: bool)
      requires Placed()
      requires pending == Todo(snap, pt, PathOf(va), level, skipFirst)
      requires InSync()
      modifies this`frame, this`index, this`level, this`va, this`pending
      ensures Valid() && InSync()
      ensures if old(pending) == [] then !Active() else Active() && old(pending) == [Pa()] + pending
    {
      var skip, stop := skipFirst, 1;
      while true
        invariant Placed() && 1 <= stop <= 3 && pending == old(pending)
        invariant Coming(skip, stop)
        invariant InSync()
        decreases if stop == 1 then 1 else 0, VA_NONCANONEND - va, level
      {
        ReadsPending(snap, m.mem, pt, PathOf(va), level, stop, pending, skip);
        var w := WordAt(m.mem, frame, index);
        if IsTable(w) && !skip {
          if level == stop {
            Yield(stop);
            return;
          } else {
            Descend(stop);
          }
        } else {
          var done;
          done, stop := Advance(skip, stop);
          if done {
            return;
          }
          skip := false;
        }
      }
    }

    /** What is pending, in the two modes of `down`: looking for the next leaf, or climbing back to a finished page. */
    ghost predicate Coming(skip: bool, stop: nat)
      requires 1 <= level <= 3 && 1 <= stop <= 3
      reads this
    {
      if stop == 1 then pending == Todo(snap, pt, PathOf(va), level, skip)
      else
        && !skip && level >= stop && pending == Tail(snap, pt, PathOf(va), stop - 1)
        && Leads(snap, pt, 3, PathOf(va), stop - 1)
    }

    /** The break out of the loop: the page below the current entry is next. */
    ghost method Yield(stop: nat)
      requires Placed() && 1 <= stop <= 3 && level == stop && Coming(false, stop) && InSync()
      requires IsTable(WordAt(snap, frame, index)) && WordAt(m.mem, frame, index) == WordAt(snap, frame, index)
      modifies this`pending
      ensures Active() && Valid() && InSync() && old(pending) == [Pa()] + pending
    {
      TableOnStep(snap, pt, 3, PathOf(va), level - 1);
      if level == 1 {
        LeafYield(snap, pt, PathOf(va));
      } else {
        TailYield(snap, pt, PathOf(va), level);
      }
      pending := After(snap, pt, PathOf(va), level);
    }

    /** One level down, through a table entry. */
    method Descend(ghost stop: nat)
      requires Placed() && 1 <= stop <= 3 && level != stop && Coming(false, stop) && InSync()
      requires IsTable(WordAt(snap, frame, index)) && WordAt(m.mem, frame, index) == WordAt(snap, frame, index)
      modifies this`frame, this`index, this`level
      ensures Placed() && level == old(level) - 1
      ensures Coming(false, stop)
    {
      TableOnStep(snap, pt, 3, PathOf(va), level - 1);
      TodoDown(snap, pt, PathOf(va), level);
      var w := WordAt(m.mem, frame, index);
      level := level - 1;
      frame := FrameOf(w);
      index := PathOf(va)[level];
    }

    /** Past the current entry: to the next one of the table, or, at the end of the table, back to the
        root to climb to the entry of the table itself; the end of the root ends the walk. */
    method Advance(skip: bool, stop: nat) returns (done: bool, stop': nat)
      requires Placed() && 1 <= stop <= 3 && Coming(skip, stop)
      requires skip || !IsTable(WordAt(snap, frame, index))
      modifies this`frame, this`index, this`level, this`va, this`pending
      ensures stop == 1
      ensures done ==> !Active() && Valid() && old(pending) == pending == []
      ensures !done ==> Placed() && 1 <= stop' <= 3 && pending == old(pending) && Coming(false, stop')
      ensures !done ==> stop' > 1 || va > old(va)
    {
      OnlySearching(skip, stop);
      if !skip {
        TodoSkip(snap, pt, PathOf(va), level);
      }
      var next, last := StepAddress(va, level);
      if last {
        if level == 3 {
          va := VA_NONCANONEND;
          pending := [];
          return true, stop;
        }
        stop' := level + 1;
        Restart();
      } else {
        StepTo(next);
        stop' := stop;
      }
      done := false;
    }

    /** Back to the root, to climb to the page whose last entry was passed. */
    method Restart()
      requires Placed() && level < 3 && PathOf(va)[level] == ENTRIES - 1 && Coming(true, 1)
      modifies this`frame, this`index, this`level
      ensures Placed() && level == 3 && Coming(false, old(level) + 1)
    {
      level := 3;
      frame := pt;
      index := PathOf(va)[3];
    }

    /** To the next entry of the same table. */
    method StepTo(next: nat)
      requires Placed() && next < VA_NONCANONEND && Successor(PathOf(va), PathOf(next), level) && Coming(true, 1)
      modifies this`index, this`va
      ensures va == next && Placed() && Coming(false, 1)
    {
      TodoNext(snap, pt, PathOf(va), PathOf(next), level);
      index := index + 1;
      va := next;
    }

    /** While climbing, every entry met is a table. */
    lemma OnlySearching(skip: bool, stop: nat)
      requires Placed() && 1 <= stop <= 3 && Coming(skip, stop)
      requires skip || !IsTable(WordAt(snap, frame, index))
      ensures stop == 1
    {
      if stop > 1 {
        LeadsDown(snap, pt, 3, PathOf(va), stop - 1, level - 1);
        TableOnStep(snap, pt, 3, PathOf(va), level - 1);
      }
    }
  }

  /** The entry that the iterator is about to read is in a page still pending, or in the root. */
  lemma ReadsPending(mem: Mem, mem': Mem, root: nat, path: Path, level: nat, stop: nat, todo: seq<nat>, skip: bool)
    requires 1 <= level <= 3 && 1 <= stop <= 3
    requires if stop == 1 then todo == Todo(mem, root, path, level, skip)
             else level >= stop && todo == Tail(mem, root, path, stop - 1)
    requires Agree(mem, mem', todo + [root])
    ensures WordAt(mem', TableOn(mem, root, 3, path, level), path[level])
            == WordAt(mem, TableOn(mem, root, 3, path, level), path[level])
  {
    if stop == 1 {
      TableInTail(mem, root, path, level, level);
    } else {
      TableInTail(mem, root, path, stop - 1, level);
    }
    assert TableOn(mem, root, 3, path, level) in todo + [root];
  }

  // ---------------------------------------------------------------------------------------
  // What the list is: every table page below the root once, children before parents

  lemma {:induction false} ListedBelowEntry(mem: Mem, g: nat, level: nat, i: nat, t: nat) returns (j: nat)
    requires 1 <= level <= 3 && i <= ENTRIES && t in Below(mem, g, level, i)
    ensures i <= j < ENTRIES && t in Child(mem, g, level, j)
    decreases ENTRIES - i
  {
    if t in Child(mem, g, level, i) {
      j := i;
    } else {
      j := ListedBelowEntry(mem, g, level, i + 1, t);
    }
  }

  lemma {:induction false} OnPathLooksDown(mem: Mem, g: nat, level: nat, p: Path, q: Path, t: nat, l: nat)
    requires level <= 3 && forall k :: 0 <= k <= level ==> p[k] == q[k]
    ensures OnPath(mem, g, level, p, t, l) == OnPath(mem, g, level, q, t, l)
    decreases level
  {
    if level > l {
      OnPathLooksDown(mem, FrameOf(WordAt(mem, g, p[level])), level - 1, p, q, t, l);
    }
  }

  /** A listed page is one that some walk passes. */
  lemma {:induction false} ListedIsReached(mem: Mem, g: nat, level: nat, t: nat) returns (path: Path, l: nat)
    requires level <= 3 && t in Pages(mem, g, level)
    ensures l <= level && OnPath(mem, g, level, path, t, l)
    ensures t != g ==> l < level
    decreases level
  {
    path, l := [0, 0, 0, 0], level;
    if t != g {
      if level > 0 {
        var j := ListedBelowEntry(mem, g, level, 0, t);
        var p;
        p, l := ListedIsReached(mem, FrameOf(WordAt(mem, g, j)), level - 1, t);
        path := p[level := j];
        OnPathLooksDown(mem, FrameOf(WordAt(mem, g, j)), level - 1, p, path, t, l);
      }
    }
  }

  /** In `s`, some occurrence of `c` comes before some occurrence of `t`. */
  ghost predicate Before(s: seq<nat>, c: nat, t: nat) {
    exists a, b :: 0 <= a < b < |s| && s[a] == c && s[b] == t
  }

  lemma BeforeWithin(s: seq<nat>, pre: seq<nat>, mid: seq<nat>, post: seq<nat>, c: nat, t: nat)
    requires s == pre + mid + post && Before(mid, c, t)
    ensures Before(s, c, t)
  {
    var a, b :| 0 <= a < b < |mid| && mid[a] == c && mid[b] == t;
    assert s[|pre| + a] == c && s[|pre| + b] == t;
  }

  lemma {:induction false} ChildSegment(mem: Mem, g: nat, level: nat, i: nat, j: nat)
      returns (pre: seq<nat>, post: seq<nat>)
    requires 1 <= level <= 3 && i <= j < ENTRIES
    ensures Below(mem, g, level, i) == pre + Child(mem, g, level, j) + post
    decreases j - i
  {
    if i == j {
      pre, post := [], Below(mem, g, level, i + 1);
    } else {
      pre, post := ChildSegment(mem, g, level, i + 1, j);
      pre := Child(mem, g, level, i) + pre;
    }
  }

  /** A child table comes before its parent. */
  lemma {:induction false} ChildFirst(mem: Mem, g: nat, level: nat, path: Path, t: nat, l: nat, c: nat)
    requires 1 <= l <= level <= 3
    requires OnPath(mem, g, level, path, t, l) && OnPath(mem, g, level, path, c, l - 1)
    ensures Before(Pages(mem, g, level), c, t)
    decreases level
  {
    var j := path[level];
    var pre, post := ChildSegment(mem, g, level, 0, j);
    var mid := Child(mem, g, level, j);
    var s := Pages(mem, g, level);
    assert s == pre + mid + (post + [g]);
    var child := FrameOf(WordAt(mem, g, j));
    if level > l {
      ChildFirst(mem, child, level - 1, path, t, l, c);
      BeforeWithin(s, pre, mid, post + [g], c, t);
    } else {
      assert mid[|mid| - 1] == c;
      assert s[|pre| + |mid| - 1] == c && s[|s| - 1] == t;
    }
  }

  lemma CountedTwice(s: seq<nat>, lo: nat, hi: nat)
    requires lo < hi < |s| && s[lo] == s[hi]
    ensures multiset(s)[s[lo]] >= 2
  {
    assert s == s[..lo] + [s[lo]] + s[lo + 1..hi] + [s[hi]] + s[hi + 1..];
  }

  lemma NoDupUnique(s: seq<nat>, a: nat, b: nat)
    requires NoDup(s) && a < |s| && b < |s| && s[a] == s[b]
    ensures a == b
  {
    if a < b {
      CountedTwice(s, a, b);
    } else if b < a {
      CountedTwice(s, b, a);
    }
  }

  lemma DropLast(s: seq<nat>, x: nat)
    requires NoDup(s + [x])
    ensures NoDup(s) && x !in s
  {
    forall y
      ensures multiset(s)[y] + (if y == x then 1 else 0) <= 1
    {
      assert multiset(s + [x])[y] <= 1;
    }
    assert multiset(s)[x] == 0;
  }

  /** Walking a tree from address 0 yields each of its pages but the root, once. */
  lemma WalkYieldsTree(mem: Mem, root: nat)
    requires NoDup(Pages(mem, root, 3))
    ensures From(mem, root, 3, PathOf(0)) + [root] == Pages(mem, root, 3)
    ensures NoDup(From(mem, root, 3, PathOf(0))) && root !in From(mem, root, 3, PathOf(0))
  {
    assert PathOf(0) == [0, 0, 0, 0];
    FromZero(mem, root, 3, PathOf(0));
    DropLast(From(mem, root, 3, PathOf(0)), root);
  }

  /** The walk along `path` passes page `t` below the root. */
  ghost predicate Passes(mem: Mem, root: nat, path: Path, l: nat, t: nat) {
    l < 3 && OnPath(mem, root, 3, path, t, l)
  }

  /** These are exactly the pages that the walk of some path passes below the root's level. */
  lemma YieldedIffReached(mem: Mem, root: nat, t: nat)
    requires NoDup(Pages(mem, root, 3))
    ensures t in From(mem, root, 3, PathOf(0)) <==> exists path: Path, l: nat :: Passes(mem, root, path, l, t)
  {
    WalkYieldsTree(mem, root);
    var s := From(mem, root, 3, PathOf(0));
    if t in s {
      assert t in s + [root];
      var path, l := ListedIsReached(mem, root, 3, t);
      assert Passes(mem, root, path, l, t);
    }
    if path: Path, l: nat :| Passes(mem, root, path, l, t) {
      OnPathInPages(mem, root, 3, path, t, l);
      PathEntry(mem, root, 3, path, t, l);
      assert t in s + [root];
    }
  }

  /** A page is yielded before the page whose entry leads to it. */
  lemma ChildrenFirst(mem: Mem, root: nat, path: Path, l: nat, a: nat, b: nat)
    requires NoDup(Pages(mem, root, 3))
    requires 1 <= l <= 3 && a < |Pages(mem, root, 3)| && b < |Pages(mem, root, 3)|
    requires OnPath(mem, root, 3, path, Pages(mem, root, 3)[b], l)
    requires OnPath(mem, root, 3, path, Pages(mem, root, 3)[a], l - 1)
    ensures a < b
  {
    var all := Pages(mem, root, 3);
    ChildFirst(mem, root, 3, path, all[b], l, all[a]);
    var x, y :| 0 <= x < y < |all| && all[x] == all[a] && all[y] == all[b];
    NoDupUnique(all, x, a);
    NoDupUnique(all, y, b);
  }
}
