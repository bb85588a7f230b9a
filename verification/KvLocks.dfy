/** The locks of the concurrent store: who holds which, and how far each operation has to go.

The lock table and the phases of the threads say the same thing about who holds what, so writers
exclude everyone; whoever waits is kept waiting by a holder; and every step brings the end nearer.
 */
module KvLocks {
  import opened SimpleKv
  import opened DbMaps
  import opened KvThreads

  /** The locks that a thread holds in its phase. */
  function Held(h: Hashing, th: Thread): seq<nat>
    requires h.Ok()
  {
    var ls := Locks(h, th.op);
    match th.phase
    case Locking(n) => if n <= |ls| then ls[..n] else ls
    case Body(_, _) => ls
    case Unlocking(n, _) => if n <= |ls| then ls[n..] else []
    case Finished(_, leaked) => if leaked then ls else []
  }

  ghost predicate Holds(h: Hashing, s: State, t: nat, b: nat)
    requires h.Ok()
  {
    t < |s.threads| && b in Held(h, s.threads[t])
  }

  ghost predicate PhaseOk(h: Hashing, th: Thread)
    requires h.Ok()
  {
    match th.phase
    case Locking(n) => n < |Locks(h, th.op)|
    case Body(i, _) => i <= Length(th.op) + 1
    case Unlocking(n, _) => n <= |Locks(h, th.op)|
    case Finished(_, _) => true
  }

  /** The state of lock `b` names exactly its holders: one writer, or readers. */
  ghost predicate LockOk(h: Hashing, s: State, b: nat)
    requires Sized(h, s) && b < h.count
  {
    match s.locks[b]
    case Open => forall t: nat :: !Holds(h, s, t, b)
    case Exclusive(o) => Holds(h, s, o, b) && Writes(s.threads[o].op) && forall t: nat :: Holds(h, s, t, b) ==> t == o
    case Shared(rs) => rs != {} && forall t: nat ::
        (t in rs <==> Holds(h, s, t, b))
        && (Holds(h, s, t, b) ==> !Writes(s.threads[t].op))
  }

  ghost predicate LockInv(h: Hashing, s: State) {
    && Sized(h, s)
    && (forall t: nat :: t < |s.threads| ==> PhaseOk(h, s.threads[t]))
    && forall b: nat :: b < h.count ==> LockOk(h, s, b)
  }

  /** Two threads that hold the same lock are readers. */
  lemma Exclusion(h: Hashing, s: State, t: nat, u: nat, b: nat)
    requires LockInv(h, s) && t != u && Holds(h, s, t, b) && Holds(h, s, u, b)
    ensures !Writes(s.threads[t].op) && !Writes(s.threads[u].op)
  {
    HeldInRange(h, s.threads[t], b);
    assert LockOk(h, s, b);
  }

  lemma HeldInRange(h: Hashing, th: Thread, b: nat)
    requires h.Ok() && b in Held(h, th)
    ensures b < h.count && b in Locks(h, th.op)
  {
  }

  // ---------------------------------------------------------------------------------------
  // The invariant is kept

  lemma Distinctness(s: seq<nat>, n: nat)
    requires Ascending(s) && n < |s|
    ensures s[n] !in s[..n] && s[n] !in s[n + 1..]
    ensures forall x :: x in s[..n + 1] <==> x in s[..n] || x == s[n]
    ensures forall x :: x in s[n..] <==> x in s[n + 1..] || x == s[n]
  {
    assert s[..n + 1] == s[..n] + [s[n]];
    assert s[n..] == [s[n]] + s[n + 1..];
  }

  /** What a step changes in the locks held by the thread that takes it. */
  lemma HeldAfter(h: Hashing, s: State, t: nat)
    requires LockInv(h, s) && Enabled(h, s, t)
    ensures var th, th' := s.threads[t], Next(h, s, t).threads[t];
            && PhaseOk(h, th')
            && match th.phase
               case Locking(n) => Locks(h, th.op)[n] !in Held(h, th)
                                  && forall x :: x in Held(h, th') <==> x in Held(h, th) || x == Locks(h, th.op)[n]
               case Unlocking(n, _) =>
                 if n < |Locks(h, th.op)| then
                   && Locks(h, th.op)[n] in Held(h, th)
                   && forall x :: x in Held(h, th') <==> x in Held(h, th) && x != Locks(h, th.op)[n]
                 else Held(h, th') == Held(h, th) == []
               case _ => Held(h, th') == Held(h, th)
  {
    var th := s.threads[t];
    var ls := Locks(h, th.op);
    match th.phase
    case Locking(n) =>
      Distinctness(ls, n);
      assert ls[..|ls|] == ls;
    case Unlocking(n, _) =>
      if n < |ls| {
        Distinctness(ls, n);
      }
    case Body(i, acc) =>
      assert ls[0..] == ls;
      assert PhaseOk(h, th);
  }

  lemma HoldsAfter(h: Hashing, s: State, t: nat, u: nat, b: nat)
    requires LockInv(h, s) && Enabled(h, s, t) && u != t
    ensures Holds(h, Next(h, s, t), u, b) <==> Holds(h, s, u, b)
  {
  }

  /** A lock that the step does not touch has the same holders. */
  lemma OtherLock(h: Hashing, s: State, s': State, t: nat, b: nat)
    requires LockInv(h, s) && Enabled(h, s, t) && s' == Next(h, s, t) && b < h.count
    requires s'.locks[b] == s.locks[b] && (b in Held(h, s'.threads[t]) <==> b in Held(h, s.threads[t]))
    ensures LockOk(h, s', b)
  {
    assert LockOk(h, s, b);
    assert forall u: nat :: Holds(h, s', u, b) <==> Holds(h, s, u, b);
  }

  lemma TakenLock(h: Hashing, s: State, s': State, t: nat, b: nat)
    requires LockInv(h, s) && Enabled(h, s, t) && s' == Next(h, s, t) && b < h.count
    requires var th := s.threads[t]; th.phase.Locking? && b == Locks(h, th.op)[th.phase.next]
    ensures LockOk(h, s', b)
  {
    HeldAfter(h, s, t);
    assert LockOk(h, s, b);
    assert forall u: nat :: u != t ==> (Holds(h, s', u, b) <==> Holds(h, s, u, b));
    assert Holds(h, s', t, b);
    if Writes(s.threads[t].op) {
      assert s'.locks[b] == Exclusive(t);
    }
  }

  lemma DroppedLock(h: Hashing, s: State, s': State, t: nat, b: nat)
    requires LockInv(h, s) && Enabled(h, s, t) && s' == Next(h, s, t) && b < h.count
    requires var th := s.threads[t];
             th.phase.Unlocking? && th.phase.next < |Locks(h, th.op)| && b == Locks(h, th.op)[th.phase.next]
    ensures LockOk(h, s', b)
  {
    HeldAfter(h, s, t);
    assert LockOk(h, s, b);
    assert s'.locks[b] == Drop(s.locks[b], t);
    assert Holds(h, s, t, b) && !Holds(h, s', t, b);
    forall u: nat | u != t
      ensures Holds(h, s', u, b) <==> Holds(h, s, u, b)
    {
      HoldsAfter(h, s, t, u, b);
    }
    DropOk(h, s, s', t, b);
  }

  lemma DropOk(h: Hashing, s: State, s': State, t: nat, b: nat)
    requires Sized(h, s) && Sized(h, s') && b < h.count && LockOk(h, s, b) && s'.locks[b] == Drop(s.locks[b], t)
    requires Holds(h, s, t, b) && !Holds(h, s', t, b)
    requires forall u: nat :: u != t ==> (Holds(h, s', u, b) <==> Holds(h, s, u, b))
    requires |s'.threads| == |s.threads| && forall u :: 0 <= u < |s.threads| ==> s'.threads[u].op == s.threads[u].op
    ensures LockOk(h, s', b)
  {
    hide Held;
    match s.locks[b]
    case Shared(rs) =>
      forall u: nat
        ensures u in rs - {t} <==> Holds(h, s', u, b)
      {
        assert u in rs <==> Holds(h, s, u, b);
      }
      if rs - {t} == {} {
        forall u: nat
          ensures !Holds(h, s', u, b)
        {
          assert u !in rs - {t};
        }
      }
    case Exclusive(o) =>
  }

  lemma NextKeepsLocks(h: Hashing, s: State, t: nat)
    requires LockInv(h, s) && Enabled(h, s, t)
    ensures LockInv(h, Next(h, s, t))
  {
    var s' := Next(h, s, t);
    var th := s.threads[t];
    var ls := Locks(h, th.op);
    HeldAfter(h, s, t);
    forall b: nat | b < h.count
      ensures LockOk(h, s', b)
    {
      if th.phase.Locking? && b == ls[th.phase.next] {
        TakenLock(h, s, s', t, b);
      } else if th.phase.Unlocking? && th.phase.next < |ls| && b == ls[th.phase.next] {
        DroppedLock(h, s, s', t, b);
      } else {
        OtherLock(h, s, s', t, b);
      }
    }
    forall u: nat | u < |s'.threads|
      ensures PhaseOk(h, s'.threads[u])
    {
      assert PhaseOk(h, s.threads[u]);
    }
  }

  lemma StartKeepsLocks(h: Hashing, s: State, op: Op)
    requires LockInv(h, s)
    ensures LockInv(h, Started(h, s, op))
  {
    var s', n := Started(h, s, op), |s.threads|;
    assert Held(h, s'.threads[n]) == [];
    forall b: nat | b < h.count
      ensures LockOk(h, s', b)
    {
      assert LockOk(h, s, b);
      assert forall u: nat :: Holds(h, s', u, b) <==> Holds(h, s, u, b);
    }
    forall u: nat | u < |s'.threads|
      ensures PhaseOk(h, s'.threads[u])
    {
      if u < n {
        assert PhaseOk(h, s.threads[u]);
      }
    }
  }

  lemma {:induction false} ContinueKeepsLocks(h: Hashing, r: Run, events: seq<Event>)
    requires LockInv(h, r.s)
    ensures LockInv(h, Continue(h, r, events).s)
  {
    if events != [] {
      ContinueKeepsLocks(h, r, events[..|events| - 1]);
      ActKeepsLocks(h, Continue(h, r, events[..|events| - 1]), events[|events| - 1]);
    }
  }

  /** In every state of every run, the lock table agrees with the threads. */
  lemma RunKeepsLocks(h: Hashing, events: seq<Event>)
    requires h.Ok()
    ensures LockInv(h, RunOf(h, events).s)
  {
    ContinueKeepsLocks(h, Initial(h), events);
  }

  lemma ActKeepsLocks(h: Hashing, r: Run, e: Event)
    requires LockInv(h, r.s)
    ensures LockInv(h, Act(h, r, e).s)
  {
    match e
    case Begin(op) => StartKeepsLocks(h, r.s, op);
    case Advance(t) =>
      if Enabled(h, r.s, t) {
        NextKeepsLocks(h, r.s, t);
      }
  }

  // ---------------------------------------------------------------------------------------
  // Progress

  ghost predicate Unfinished(s: State, t: nat) {
    t < |s.threads| && !s.threads[t].phase.Finished?
  }

  /** Whoever cannot take a lock is kept waiting by a holder of it. */
  lemma Blocker(h: Hashing, s: State, b: nat, write: bool) returns (u: nat)
    requires LockInv(h, s) && b < h.count && !CanTake(s.locks[b], write)
    ensures Holds(h, s, u, b)
  {
    assert LockOk(h, s, b);
    match s.locks[b]
    case Exclusive(o) => u := o;
    case Shared(rs) => u :| u in rs;
  }

  /** A thread that waits has smaller locks only: it holds none from the one it waits for on. */
  lemma WaitsHigher(h: Hashing, th: Thread, b: nat)
    requires h.Ok() && PhaseOk(h, th) && th.phase.Locking? && b in Held(h, th)
    ensures b < Locks(h, th.op)[th.phase.next]
  {
  }

  /** The operation names this key. */
  predicate Names(op: Op, k: Key) {
    match op
    case MultiGet(ks) => k in ks
    case MultiPut(ks, _) => k in ks
    case _ => op.key == k
  }

  /** The operations name keys of one bucket, and one of them is neither Get nor MultiGet. */
  ghost predicate Conflict(h: Hashing, op: Op, other: Op)
    requires h.Ok()
  {
    && (exists k, k' :: Names(op, k) && Names(other, k') && h.BucketOf(k) == h.BucketOf(k'))
    && (!(op.Get? || op.MultiGet?) || !(other.Get? || other.MultiGet?))
  }

  lemma LockIsNamed(h: Hashing, op: Op, b: nat) returns (k: Key)
    requires h.Ok() && b in Locks(h, op)
    ensures Names(op, k) && h.BucketOf(k) == b
  {
    if op.MultiGet? || op.MultiPut? {
      SortedMembers(h, op.keys, b);
      var i :| 0 <= i < |op.keys| && h.BucketOf(op.keys[i]) == b;
      k := op.keys[i];
    } else {
      k := op.key;
    }
  }

  /** An operation waits for conflicting operations only: in every run, whoever cannot move although it has not
      returned conflicts with another operation. */
  lemma WaitsForConflict(h: Hashing, events: seq<Event>, t: nat) returns (u: nat)
    requires h.Ok() && Unfinished(RunOf(h, events).s, t) && !Enabled(h, RunOf(h, events).s, t)
    ensures var threads := RunOf(h, events).s.threads;
            u < |threads| && u != t && Conflict(h, threads[t].op, threads[u].op)
  {
    var s := RunOf(h, events).s;
    RunKeepsLocks(h, events);
    var th := s.threads[t];
    assert PhaseOk(h, th) && th.phase.Locking?;
    var b := Locks(h, th.op)[th.phase.next];
    u := Blocker(h, s, b, Writes(th.op));
    assert LockOk(h, s, b);
    HeldInRange(h, s.threads[u], b);
    if u == t {
      WaitsHigher(h, th, b);
    }
    var k := LockIsNamed(h, th.op, b);
    var k' := LockIsNamed(h, s.threads[u].op, b);
    assert Names(th.op, k) && Names(s.threads[u].op, k');
  }

  /** A bound on the steps that a thread still has to take. */
  function StepsLeft(h: Hashing, th: Thread): nat
    requires h.Ok()
  {
    var n := |Locks(h, th.op)|;
    match th.phase
    case Locking(k) => n + 4 + Length(th.op) + (if k < n then n - k else 0)
    case Body(i, _) => n + 2 + (if i < Length(th.op) + 2 then Length(th.op) + 2 - i else 0)
    case Unlocking(k, _) => 1 + (if k < n then n - k else 0)
    case Finished(_, _) => 0
  }

  function TotalLeft(h: Hashing, threads: seq<Thread>): nat
    requires h.Ok()
  {
    if threads == [] then 0 else StepsLeft(h, threads[|threads| - 1]) + TotalLeft(h, threads[..|threads| - 1])
  }

  lemma {:induction false} TotalFalls(h: Hashing, threads: seq<Thread>, t: nat, th: Thread)
    requires h.Ok() && t < |threads| && StepsLeft(h, th) < StepsLeft(h, threads[t])
    ensures TotalLeft(h, threads[t := th]) < TotalLeft(h, threads)
  {
    var n := |threads| - 1;
    if t < n {
      TotalFalls(h, threads[..n], t, th);
      assert threads[t := th][..n] == threads[..n][t := th];
    } else {
      assert threads[t := th][..n] == threads[..n];
    }
  }

  /** Every step brings the end nearer, so operations cannot run for ever. */
  lemma StepsFall(h: Hashing, s: State, t: nat)
    requires LockInv(h, s) && Enabled(h, s, t)
    ensures TotalLeft(h, Next(h, s, t).threads) < TotalLeft(h, s.threads)
  {
    var s' := Next(h, s, t);
    assert PhaseOk(h, s.threads[t]);
    TotalFalls(h, s.threads, t, s'.threads[t]);
    assert s'.threads == s.threads[t := s'.threads[t]];
  }

  lemma ActAdvance(h: Hashing, r: Run, t: nat)
    requires Sized(h, r.s) && Enabled(h, r.s, t)
    ensures Act(h, r, Advance(t)).s == Next(h, r.s, t)
  {
  }

  lemma ContinueNone(h: Hashing, r: Run)
    requires Sized(h, r.s)
    ensures Continue(h, r, []) == r
  {
  }

  lemma {:induction false} ContinueFirst(h: Hashing, r: Run, e: Event, rest: seq<Event>)
    requires Sized(h, r.s)
    ensures Continue(h, r, [e] + rest) == Continue(h, Act(h, r, e), rest)
  {
    hide Act;
    if rest == [] {
      assert [e] + rest == [e];
      assert [e][..0] == [];
    } else {
      var n := |rest| - 1;
      ContinueFirst(h, r, e, rest[..n]);
      assert ([e] + rest)[..n + 1] == [e] + rest[..n];
    }
  }

  // ---------------------------------------------------------------------------------------
  // The leak

  lemma OneLock(h: Hashing, k: Key)
    requires h.Ok()
    ensures SortedBuckets(h, [k]) == [h.BucketOf(k)]
  {
    assert [k][..0] == [];
    assert SortedBuckets(h, []) == [];
  }

  /** Such a run exists: a `MultiGet` on an empty store. */
  lemma LeakExample(h: Hashing, k: Key)
    requires h.Ok()
    ensures RunOf(h, [Begin(MultiGet([k])), Advance(0), Advance(0)]).s.threads
              == [Thread(MultiGet([k]), Finished(Fail, true))]
  {
    var op := MultiGet([k]);
    var e1, e2, e3 := [Begin(op)], [Begin(op), Advance(0)], [Begin(op), Advance(0), Advance(0)];
    assert e1[..0] == [] && e2[..1] == e1 && e3[..2] == e2;
    OneLock(h, k);
    assert Locks(h, op) == [h.BucketOf(k)];
    var r0 := Initial(h);
    assert Continue(h, r0, []) == r0;
    var r1 := Continue(h, r0, e1);
    assert r1.s.threads == [Thread(op, Locking(0))] && r1.s.locks == r0.s.locks && r1.s.buckets == r0.s.buckets;
    var r2 := Continue(h, r0, e2);
    assert r2.s.threads == [Thread(op, Body(0, []))] && r2.s.buckets == r0.s.buckets;
    assert Find(h, r2.s.buckets, k) == None;
    assert Continue(h, r0, e3) == Act(h, r2, Advance(0));
  }
}
