/** What becomes of a setup, foretold from the number of free pages and the pages it maps.

`process_setup` checks none of its allocations, so it goes on when memory has run out, and maps page 0 for the user
where a page was to be; and when it is told to map a page twice, the first page is lost. A `Plan` follows it
step by step, on the number of free pages and the set of tables only.
 */
module SetupPlans {
  import opened Paging
  import opened PageTables
  import opened Depths
  import opened Spaces
  import opened Setups

  /** Where a setup stands: the free pages left, the tables built, whether the accounts are kept, and whether everything
      asked for so far is mapped. */
  datatype Plan = Plan(free: nat, tables: set<Block>, clean: bool, whole: bool)

  /** With the root page taken. */
  function Begun(free: nat): Plan
    requires free > 0
  {
    Plan(free - 1, {}, true, true)
  }

  /** A low page is mapped; when its tables cannot be built, it is left out and memory is full. */
  function AfterLow(p: Plan, v: nat): Plan {
    var d := Missing(p.tables, v * PAGESIZE);
    if !p.whole then p
    else if d <= p.free then p.(free := p.free - d, tables := p.tables + Touch(v * PAGESIZE))
    else p.(free := 0, whole := false)
  }

  /** A page is allocated and mapped at page `v`, which `again` says was requested before. */
  function AfterRequest(p: Plan, v: nat, again: bool): Plan {
    var d := Missing(p.tables, v * PAGESIZE);
    if !p.clean then p
    else if p.free == 0
        then p.(clean := !HasLeaf(p.tables, v * PAGESIZE), whole := false)  // null; mapped if the tables exist
    else if p.whole && d <= p.free - 1
        && !again then p.(free := p.free - 1 - d, tables := p.tables + Touch(v * PAGESIZE))
    else p.(clean := false, whole := false)                                                 // a page is lost
  }

  function LowPlan(free: nat, low: seq<Translation>, n: nat): Plan
    requires free > 0 && n <= |low|
  {
    if n == 0 then Begun(free)
    else if low[n - 1].Mapped? then AfterLow(LowPlan(free, low, n - 1), n - 1)
    else LowPlan(free, low, n - 1)
  }

  /** After low memory as in `low` and the first `n` requests, from `free` free pages. */
  function PlanOf(free: nat, low: seq<Translation>, requests: seq<Request>, n: nat): Plan
    requires free > 0 && n <= |requests|
  {
    if n == 0 then LowPlan(free, low, |low|)
    else AfterRequest(PlanOf(free, low, requests, n - 1), requests[n - 1].page,
                      Requested(requests[..n - 1], requests[n - 1].page))
  }

  lemma LowPlanStarts(free: nat, low: seq<Translation>)
    requires free > 0
    ensures LowPlan(free, low, 0) == Begun(free)
  {
  }

  lemma LowPlanStep(free: nat, low: seq<Translation>, v: nat)
    requires free > 0 && v < |low|
    ensures LowPlan(free, low, v + 1) == if low[v].Mapped? then AfterLow(LowPlan(free, low, v), v)
              else LowPlan(free, low, v)
  {
  }

  lemma PlanStarts(free: nat, low: seq<Translation>, requests: seq<Request>)
    requires free > 0
    ensures PlanOf(free, low, requests, 0) == LowPlan(free, low, |low|)
  {
  }

  lemma PlanStep(free: nat, low: seq<Translation>, requests: seq<Request>, i: nat)
    requires free > 0 && i < |requests|
    ensures PlanOf(free, low, requests, i + 1)
         == AfterRequest(PlanOf(free, low, requests, i), requests[i].page, Requested(requests[..i], requests[i].page))
  {
  }

  /** The whole setup. */
  function FullPlan(free: nat, low: seq<Translation>, requests: seq<Request>): Plan
    requires free > 0
  {
    PlanOf(free, low, requests, |requests|)
  }

  // ---------------------------------------------------------------------------------------
  // When all goes well

  function LowTables(low: seq<Translation>, n: nat): set<Block>
    requires n <= |low|
  {
    if n == 0 then {} else LowTables(low, n - 1) + if low[n - 1].Mapped? then Touch((n - 1) * PAGESIZE) else {}
  }

  /** The tables that low memory and the first `n` requests need. */
  function AllTables(low: seq<Translation>, requests: seq<Request>, n: nat): set<Block>
    requires n <= |requests|
  {
    if n == 0 then LowTables(low, |low|) else AllTables(low, requests, n - 1) + Touch(requests[n - 1].page * PAGESIZE)
  }

  /** The pages that a setup needs: a root, the tables, and a page for each request. */
  function Needs(low: seq<Translation>, requests: seq<Request>): nat {
    1 + |AllTables(low, requests, |requests|)| + |requests|
  }

  lemma {:induction false} LowWholeIff(free: nat, low: seq<Translation>, n: nat)
    requires free > 0 && n <= |low|
    ensures var p := LowPlan(free, low, n);
            && (p.whole <==> free >= 1 + |LowTables(low, n)|) && p.clean
            && (p.whole ==> p.free == free - 1 - |LowTables(low, n)| && p.tables == LowTables(low, n))
  {
    hide Touch, Missing;
    if n > 0 {
      LowWholeIff(free, low, n - 1);
      var tables := LowTables(low, n - 1);
      TouchSize(tables, (n - 1) * PAGESIZE);
      assert tables + {} == tables;
    }
  }

  lemma {:induction false} WholeUpTo(free: nat, low: seq<Translation>, requests: seq<Request>, n: nat)
    requires free > 0 && n <= |requests|
    ensures var p, needs := PlanOf(free, low, requests, n), 1 + |AllTables(low, requests, n)| + n;
            && (p.whole <==> Distinct(requests[..n]) && free >= needs) && (p.whole ==> p.clean)
            && (p.whole ==> p.free == free - needs && p.tables == AllTables(low, requests, n))
  {
    hide Touch, Missing, HasLeaf, LowPlan, LowTables;
    if n == 0 {
      LowWholeIff(free, low, |low|);
    } else {
      WholeUpTo(free, low, requests, n - 1);
      TouchSize(AllTables(low, requests, n - 1), requests[n - 1].page * PAGESIZE);
      assert requests[..n] == requests[..n - 1] + [requests[n - 1]];
      MoreRequests(requests[..n - 1], requests[n - 1]);
      DistinctMore(requests[..n - 1], requests[n - 1]);
    }
  }

  lemma DistinctMore(requests: seq<Request>, r: Request)
    ensures Distinct(requests) && !Requested(requests, r.page) ==> Distinct(requests + [r])
  {
    var all := requests + [r];
    if Distinct(requests) && !Requested(requests, r.page) {
      forall i, j | 0 <= i < j < |all|
        ensures all[i].page != all[j].page
      {
        if j == |requests| {
          assert requests[i].page != r.page;
        }
      }
    }
  }

  /** Everything asked for is mapped, and the accounts are kept, if and only if no page is requested twice and the free
      pages suffice. */
  lemma WholeIff(free: nat, low: seq<Translation>, requests: seq<Request>)
    requires free > 0
    ensures FullPlan(free, low, requests).whole <==> Distinct(requests) && free >= Needs(low, requests)
    ensures FullPlan(free, low, requests).whole ==> FullPlan(free, low, requests).clean
  {
    WholeUpTo(free, low, requests, |requests|);
    assert requests[..|requests|] == requests;
  }

  // ---------------------------------------------------------------------------------------
  // When the accounts are kept although memory runs out

  /** None of the requests from `i` on has all its tables among `tables`. */
  ghost predicate NoLeaf(tables: set<Block>, requests: seq<Request>, i: nat, n: nat)
    requires n <= |requests|
  {
    forall j :: i <= j < n ==> !HasLeaf(tables, requests[j].page * PAGESIZE)
  }

  /** The tables of low page `k` are the first that cannot be built. */
  ghost predicate LowStops(free: nat, low: seq<Translation>, k: nat) {
    k < |low| && 1 + |LowTables(low, k)| <= free < 1 + |LowTables(low, k + 1)|
  }

  /** The last free page is taken just before request `i`. */
  ghost predicate EmptyBefore(free: nat, low: seq<Translation>, requests: seq<Request>, i: nat) {
    i < |requests| && Distinct(requests[..i]) && free == 1 + |AllTables(low, requests, i)| + i
  }

  lemma {:induction false} LowStopped(free: nat, low: seq<Translation>, k: nat, n: nat)
    requires free > 0 && LowStops(free, low, k) && k < n <= |low|
    ensures LowPlan(free, low, n) == Plan(0, LowTables(low, k), true, false)
    decreases n
  {
    hide Touch, Missing, LowTables;
    if n == k + 1 {
      LowWholeIff(free, low, k);
      LowWholeIff(free, low, n);
    } else {
      LowStopped(free, low, k, n - 1);
    }
  }

  lemma NoTables(low: seq<Translation>, n: nat)
    requires n == 0
    ensures LowTables(low, n) == {}
  {
  }

  /** With low memory not built, some page is the first to fail. */
  lemma {:induction false} FirstStop(free: nat, low: seq<Translation>, n: nat) returns (k: nat)
    requires free > 0 && n <= |low| && free < 1 + |LowTables(low, n)|
    ensures k < n && LowStops(free, low, k)
    decreases n
  {
    hide LowTables;
    if n == 0 {
      NoTables(low, n);
    } else if free < 1 + |LowTables(low, n - 1)| {
      k := FirstStop(free, low, n - 1);
    } else {
      k := n - 1;
    }
  }

  /** With no page free, each request leaves everything as it is, or maps page 0. */
  lemma {:induction false} EmptyTail(free: nat, low: seq<Translation>, requests: seq<Request>, i: nat, n: nat)
    requires free > 0 && i <= n <= |requests|
    requires PlanOf(free, low, requests, i).clean && PlanOf(free, low, requests, i).free == 0
    ensures var p, q := PlanOf(free, low, requests, i), PlanOf(free, low, requests, n);
            && (q.clean <==> NoLeaf(p.tables, requests, i, n))
            && (q.clean ==> q.free == 0 && q.tables == p.tables)
    decreases n
  {
    hide HasLeaf, Missing, Touch;
    if i < n {
      EmptyTail(free, low, requests, i, n - 1);
    }
  }

  /** Accounts once broken stay broken. */
  lemma {:induction false} StaysBroken(free: nat, low: seq<Translation>, requests: seq<Request>, i: nat, n: nat)
    requires free > 0 && i <= n <= |requests| && !PlanOf(free, low, requests, i).clean
    ensures !PlanOf(free, low, requests, n).clean
    decreases n
  {
    hide HasLeaf, Missing, Touch;
    if i < n {
      StaysBroken(free, low, requests, i, n - 1);
    }
  }

  /** The first request that is not mapped as asked for. */
  lemma {:induction false} FirstFailure(free: nat, low: seq<Translation>, requests: seq<Request>, n: nat)
      returns (i: nat)
    requires free > 0 && n <= |requests| && PlanOf(free, low, requests, 0).whole
               && !PlanOf(free, low, requests, n).whole
    ensures i < n && PlanOf(free, low, requests, i).whole && !PlanOf(free, low, requests, i + 1).whole
    decreases n
  {
    hide PlanOf;
    if PlanOf(free, low, requests, n - 1).whole {
      i := n - 1;
    } else {
      i := FirstFailure(free, low, requests, n - 1);
    }
  }

  /** Exactly when the accounts are kept: everything is mapped as asked for; or the tables of low memory cannot be
      built and those that are reach no request; or the pages run out exactly before some request, and neither it nor
      a later one has its tables. */
  lemma CleanIff(free: nat, low: seq<Translation>, requests: seq<Request>)
    requires free > 0
    ensures FullPlan(free, low, requests).clean <==>
              || (Distinct(requests) && free >= Needs(low, requests))
              || (exists k: nat :: LowStops(free, low, k) && NoLeaf(LowTables(low, k), requests, 0, |requests|))
              || (exists i: nat ::
                  EmptyBefore(free, low, requests, i)
                  && NoLeaf(AllTables(low, requests, i), requests, i, |requests|))
  {
    hide PlanOf, LowTables, AllTables, NoLeaf, Needs, Distinct;
    WholeIff(free, low, requests);
    forall k: nat | LowStops(free, low, k)
      ensures FullPlan(free, low, requests).clean <==> NoLeaf(LowTables(low, k), requests, 0, |requests|)
    {
      CleanAfterStop(free, low, requests, k);
    }
    forall i: nat | EmptyBefore(free, low, requests, i)
      ensures FullPlan(free, low, requests).clean <==> NoLeaf(AllTables(low, requests, i), requests, i, |requests|)
    {
      CleanAfterEmpty(free, low, requests, i);
    }
    if FullPlan(free, low, requests).clean && !FullPlan(free, low, requests).whole {
      CleanOnlyIf(free, low, requests);
    }
  }

  lemma CleanAfterStop(free: nat, low: seq<Translation>, requests: seq<Request>, k: nat)
    requires free > 0 && LowStops(free, low, k)
    ensures FullPlan(free, low, requests).clean <==> NoLeaf(LowTables(low, k), requests, 0, |requests|)
  {
    LowStopped(free, low, k, |low|);
    PlanStarts(free, low, requests);
    hide LowPlan, PlanOf, LowTables, NoLeaf;
    EmptyTail(free, low, requests, 0, |requests|);
  }

  lemma CleanAfterEmpty(free: nat, low: seq<Translation>, requests: seq<Request>, i: nat)
    requires free > 0 && EmptyBefore(free, low, requests, i)
    ensures FullPlan(free, low, requests).clean <==> NoLeaf(AllTables(low, requests, i), requests, i, |requests|)
  {
    hide PlanOf, AllTables, NoLeaf, Distinct;
    WholeUpTo(free, low, requests, i);
    EmptyTail(free, low, requests, i, |requests|);
  }

  /** If the accounts are kept but not all is mapped, the pages ran out in one of the two ways. */
  lemma CleanOnlyIf(free: nat, low: seq<Translation>, requests: seq<Request>)
    requires free > 0 && FullPlan(free, low, requests).clean && !FullPlan(free, low, requests).whole
    ensures (exists k: nat :: LowStops(free, low, k)) || (exists i: nat :: EmptyBefore(free, low, requests, i))
  {
    hide PlanOf, LowTables, AllTables, Distinct, LowPlan, LowStops;
    PlanStarts(free, low, requests);
    LowWholeIff(free, low, |low|);
    if LowPlan(free, low, |low|).whole {
      var i := FirstFailure(free, low, requests, |requests|);
      WholeUpTo(free, low, requests, i);
      PlanStep(free, low, requests, i);
      if PlanOf(free, low, requests, i).free > 0 {
        StaysBroken(free, low, requests, i + 1, |requests|);
      }
      assert EmptyBefore(free, low, requests, i);
    } else {
      var k := FirstStop(free, low, |low|);
    }
  }

  // ---------------------------------------------------------------------------------------
  // Examples

  lemma FirstBlocks(a: nat)
    requires a < Span(1)
    ensures Touch(a) == {Block(1, 0), Block(2, 0), Block(3, 0)} && a / Span(1) == 0
  {
    assert a / Span(1) == 0 && a / Span(2) == 0 && a / Span(3) == 0;
  }

  lemma FirstTables(v: nat)
    requires v < 512
    ensures |Touch(v * PAGESIZE)| == 3 && HasLeaf(Touch(v * PAGESIZE), v * PAGESIZE)
    ensures Touch(v * PAGESIZE) == Touch(0)
    ensures Missing({}, v * PAGESIZE) == 3
  {
    FirstBlocks(v * PAGESIZE);
    FirstBlocks(0);
    var b1, b2, b3 := Block(1, 0), Block(2, 0), Block(3, 0);
    hide Touch;
    assert {b1, b2, b3} == {b1} + {b2} + {b3};
    assert Touch(v * PAGESIZE) - {} == Touch(v * PAGESIZE);
  }

  /** Four free pages, one low page and one request beside it: the root and three tables take all of them, the page
      for the request is null, and page 0 is mapped for the user. */
  lemma PageZeroExample(t: Translation)
    requires t.Mapped?
    ensures !FullPlan(4, [Unmapped, t], [Request(2, true)]).clean
  {
    var low, requests := [Unmapped, t], [Request(2, true)];
    FirstTables(1);
    FirstTables(2);
    hide Touch, Missing, HasLeaf;
    assert {} + Touch(PAGESIZE) == Touch(PAGESIZE);
    assert LowPlan(4, low, 1) == Begun(4);
    assert LowPlan(4, low, 2) == Plan(0, Touch(PAGESIZE), true, true);
    assert requests[..0] == [];
    assert PlanOf(4, low, requests, 0) == LowPlan(4, low, 2);
  }

  /** The same page requested twice, with memory enough: the first page is lost. */
  lemma DuplicateExample(free: nat, v: nat)
    requires v < 512 && free >= 6
    ensures !FullPlan(free, [], [Request(v, true), Request(v, true)]).clean
  {
    var requests := [Request(v, true), Request(v, true)];
    FirstTables(v);
    hide Touch, Missing, HasLeaf;
    assert requests[..0] == [] && requests[..1] == [requests[0]];
    assert PlanOf(free, [], requests, 0) == Begun(free);
    var p := PlanOf(free, [], requests, 1);
    assert !Requested(requests[..0], v);
    assert p.whole && p.free == free - 5;
    assert Requested(requests[..1], v);
  }

  /** Two free pages: the tables of low memory cannot be built, and no request can be mapped, to page 0 or else. The
      accounts are kept, but the process has nothing. */
  lemma EmptyHandedExample(t: Translation)
    requires t.Mapped?
    ensures var p := FullPlan(2, [Unmapped, t], [Request(2, true)]); p.clean && !p.whole
  {
    var low, requests := [Unmapped, t], [Request(2, true)];
    FirstTables(1);
    hide Touch, Missing;
    assert LowPlan(2, low, 1) == Begun(2);
    assert LowPlan(2, low, 2) == Plan(0, {}, true, false);
    assert requests[..0] == [];
    assert PlanOf(2, low, requests, 0) == LowPlan(2, low, 2);
  }
}
