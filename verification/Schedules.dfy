/** The round-robin choice of `schedule`: the next runnable process in cyclic order. */
module Schedules {
  import opened Spaces

  /** How many steps of `pid = (pid + 1) % NPROC` lead from slot `c` to slot `p`, between 1 and `n`. */
  function Distance(c: nat, p: nat, n: nat): (d: nat)
    requires c < n && p < n
    ensures 1 <= d <= n
  {
    if c < p then p - c else p + n - c
  }

  function NextSlot(c: nat, n: nat): (p: nat)
    requires c < n
    ensures p < n
  {
    (c + 1) % n
  }

  /** What `Distance` counts: one step leads to the slot at distance 1, and brings every other slot nearer by one. */
  lemma DistanceCounts(c: nat, p: nat, n: nat)
    requires c < n && p < n
    ensures Distance(c, p, n) == if p == NextSlot(c, n) then 1 else Distance(NextSlot(c, n), p, n) + 1
  {
    assert c + 1 < n ==> (c + 1) % n == c + 1;
    assert n % n == 0;
  }

  ghost predicate IsRunnable(ptable: seq<Proc>, i: nat) {
    i < |ptable| && ptable[i].state.Runnable?
  }

  /** Slot `p` is the one that `schedule` runs when `c` was current: it is runnable, and no runnable slot is nearer. */
  ghost predicate Picks(ptable: seq<Proc>, c: nat, p: nat) {
    && c < |ptable| && IsRunnable(ptable, p)
    && forall q: nat :: IsRunnable(ptable, q) ==> Distance(c, p, |ptable|) <= Distance(c, q, |ptable|)
  }

  /** Each dispatch of another process brings a runnable process nearer. */
  lemma DispatchNearer(ptable: seq<Proc>, c: nat, c': nat, p: nat)
    requires Picks(ptable, c, c') && IsRunnable(ptable, p) && c' != p
    ensures Distance(c', p, |ptable|) < Distance(c, p, |ptable|)
  {
    assert Distance(c, c', |ptable|) <= Distance(c, p, |ptable|);
  }

  /** A history of `schedule`: the process table at each call, and the slot that was current before it. */
  ghost predicate History(tables: seq<seq<Proc>>, currents: seq<nat>, n: nat) {
    && |currents| == |tables| + 1
    && forall k :: 0 <= k < |tables| ==> |tables[k]| == n && Picks(tables[k], currents[k], currents[k + 1])
  }

  /** No starvation: over NPROC calls of `schedule`, a process that is runnable at each of them is dispatched. */
  lemma {:induction false} DispatchedSoon(tables: seq<seq<Proc>>, currents: seq<nat>, n: nat, p: nat) returns (k: nat)
    requires History(tables, currents, n) && p < n && currents[0] < n
    requires |tables| >= Distance(currents[0], p, n)
    requires forall j :: 0 <= j < |tables| ==> IsRunnable(tables[j], p)
    ensures 1 <= k <= Distance(currents[0], p, n) <= n && currents[k] == p
    decreases |tables|
  {
    assert Picks(tables[0], currents[0], currents[1]);
    if currents[1] == p {
      k := 1;
    } else {
      DispatchNearer(tables[0], currents[0], currents[1], p);
      var k' := DispatchedSoon(tables[1..], currents[1..], n, p);
      k := k' + 1;
    }
  }
}
