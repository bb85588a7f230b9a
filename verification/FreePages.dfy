/** The free pages of the allocator, counted. */
module FreePages {
  import opened Paging
  import opened PageTables
  import opened Allocator
  import opened VmIters

  function FreeSet(m: Machine, refs: seq<nat>): set<nat> {
    set f: nat | f < |refs| && m.Allocatable(f) && refs[f] == 0
  }

  ghost function Members(s: seq<nat>): set<nat> {
    set x | x in s
  }

  lemma {:induction false} DistinctCount(s: seq<nat>)
    requires NoDup(s)
    ensures |Members(s)| == |s|
  {
    if s != [] {
      var front, x := s[..|s| - 1], s[|s| - 1];
      assert s == front + [x];
      assert multiset(s) == multiset(front) + multiset{x};
      DistinctFront(s, front, x);
      DistinctCount(front);
      assert Members(s) == Members(front) + {x};
    }
  }

  lemma DistinctFront(s: seq<nat>, front: seq<nat>, x: nat)
    requires NoDup(s) && multiset(s) == multiset(front) + multiset{x}
    ensures NoDup(front) && x !in front
  {
    forall y
      ensures multiset(front)[y] <= 1
    {
      assert multiset(s)[y] <= 1;
    }
    assert multiset(s)[x] <= 1;
    assert x !in multiset(front);
  }

  /** Each page that `try_map` adds to the table is one free page less. */
  lemma FreeAfter(m: Machine, mem: Mem, refs: seq<nat>, mem': Mem, refs': seq<nat>, root: nat, added: seq<nat>)
    requires Accounted(mem, refs, mem', refs', root, added) && NoDup(Pages(mem', root, 3))
    requires forall f :: f in added ==> m.Allocatable(f)
    ensures |FreeSet(m, refs)| == |FreeSet(m, refs')| + |added|
  {
    AddedDistinct(mem, mem', root, added);
    DistinctCount(added);
    assert FreeSet(m, refs) == FreeSet(m, refs') + Members(added);
    assert FreeSet(m, refs') !! Members(added);
  }

  lemma AddedDistinct(mem: Mem, mem': Mem, root: nat, added: seq<nat>)
    requires multiset(Pages(mem', root, 3)) == multiset(Pages(mem, root, 3)) + multiset(added)
               && NoDup(Pages(mem', root, 3))
    ensures NoDup(added)
  {
    forall f
      ensures multiset(added)[f] <= 1
    {
      assert multiset(Pages(mem', root, 3))[f] <= 1;
    }
  }

  lemma FreeLess(m: Machine, refs: seq<nat>, pa: nat)
    requires m.Allocatable(pa) && pa < |refs| && refs[pa] == 0
    ensures |FreeSet(m, refs)| == |FreeSet(m, refs[pa := 1])| + 1
  {
    assert FreeSet(m, refs) == FreeSet(m, refs[pa := 1]) + {pa};
  }

  lemma NoneFree(m: Machine, refs: seq<nat>)
    requires forall f :: 0 <= f < |refs| && m.Allocatable(f) ==> refs[f] != 0
    ensures |FreeSet(m, refs)| == 0
  {
    assert FreeSet(m, refs) == {};
  }

  /** Counting a page that is in use once more frees and takes none. */
  lemma FreeSame(m: Machine, refs: seq<nat>, f: nat, n: nat)
    requires f < |refs| && refs[f] != 0 && n != 0
    ensures FreeSet(m, refs[f := n]) == FreeSet(m, refs)
  {
  }
}
