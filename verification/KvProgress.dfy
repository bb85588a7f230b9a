/** Progress of the concurrent store, and what a `MultiGet` that misses a key does to it.

Such a `MultiGet` returns with its locks held, and these are the only locks ever lost. An operation is
doomed when it waits, directly or through others that wait, for one of them; whoever is not doomed in the end
has returned.
 */
module KvProgress {
  import opened SimpleKv
  import opened DbMaps
  import opened KvThreads
  import opened KvLocks
  import opened KvLinear

  // ---------------------------------------------------------------------------------------
  // Which operations return with their locks

  /** Only a `MultiGet` that fails keeps its locks. */
  ghost predicate LeakOk(th: Thread) {
    match th.phase
    case Unlocking(_, a) => th.op.MultiGet? ==> a != Fail
    case Finished(a, leaked) => leaked <==> th.op.MultiGet? && a == Fail
    case _ => true
  }

  ghost predicate LeaksOk(s: State) {
    forall t: nat :: t < |s.threads| ==> LeakOk(s.threads[t])
  }

  lemma ActKeepsLeaks(h: Hashing, r: Run, e: Event)
    requires Sized(h, r.s) && LeaksOk(r.s)
    ensures LeaksOk(Act(h, r, e).s)
  {
    var s' := Act(h, r, e).s;
    forall t: nat | t < |s'.threads|
      ensures LeakOk(s'.threads[t])
    {
      if t < |r.s.threads| {
        assert LeakOk(r.s.threads[t]);
      }
    }
  }

  lemma {:induction false} ContinueKeepsLeaks(h: Hashing, r: Run, events: seq<Event>)
    requires Sized(h, r.s) && LeaksOk(r.s)
    ensures LeaksOk(Continue(h, r, events).s)
  {
    if events != [] {
      ContinueKeepsLeaks(h, r, events[..|events| - 1]);
      ActKeepsLeaks(h, Continue(h, r, events[..|events| - 1]), events[|events| - 1]);
    }
  }

  /** The answer at place `i` is that of the simple store, with the contents that the operations before leave. */
  lemma {:induction false} AnswerAt(ops: seq<Op>, i: nat)
    requires i < |ops|
    ensures ApplyAll(ops).0[i] == Apply(ops[i], ApplyAll(ops[..i]).1).answer
    decreases |ops|
  {
    hide Apply;
    var front := ops[..|ops| - 1];
    if i < |front| {
      AnswerAt(front, i);
      assert front[..i] == ops[..i];
    }
  }

  /** The contents of the simple store when the operation at place `i` of the order has its turn. */
  ghost function Before(r: Run, i: nat): Contents
    requires Listed(r) && i <= |r.log|
  {
    ApplyAll(OpsOf(r.s, r.log)[..i]).1
  }

  /** The operation at place `i` of the order is a `MultiGet`, and one of its keys is absent from the simple store. */
  ghost predicate Misses(r: Run, i: nat)
    requires Listed(r) && i < |r.log|
  {
    var op := r.s.threads[r.log[i]].op;
    op.MultiGet? && !AllIn(op.keys, Before(r, i))
  }

  /** A run with all that is known about the states of runs. */
  ghost predicate Reachable(h: Hashing, r: Run) {
    Sized(h, r.s) && Lin(h, r) && History(r) && LeaksOk(r.s)
  }

  lemma ContinueReachable(h: Hashing, r: Run, events: seq<Event>)
    requires Reachable(h, r)
    ensures Reachable(h, Continue(h, r, events)) && r.log <= Continue(h, r, events).log
  {
    ContinueKeepsLin(h, r, events);
    ContinueKeepsHistory(h, r, events);
    ContinueKeepsLeaks(h, r, events);
  }

  lemma RunReachable(h: Hashing, events: seq<Event>)
    requires h.Ok()
    ensures Reachable(h, RunOf(h, events))
  {
    InitialIsLin(h);
    ContinueReachable(h, Initial(h), events);
  }

  lemma FailsIffMisses(op: Op, m: Contents)
    requires op.MultiGet?
    ensures Apply(op, m).answer == Fail <==> !AllIn(op.keys, m)
  {
  }

  lemma GivenAt(r: Run, i: nat)
    requires History(r) && i < |r.log|
    ensures r.given[r.log[i]] == Apply(r.s.threads[r.log[i]].op, Before(r, i)).answer
  {
    hide Apply, ApplyAll;
    AnswerAt(OpsOf(r.s, r.log), i);
  }

  lemma ReturnedGiven(h: Hashing, r: Run, t: nat)
    requires Lin(h, r) && t < |r.s.threads| && r.s.threads[t].phase.Finished?
    ensures t in r.given && r.s.threads[t].phase.answer == r.given[t]
  {
    assert LinAt(h, r, t);
  }

  lemma LeakedIff(h: Hashing, r: Run, t: nat) returns (i: nat)
    requires Reachable(h, r) && t < |r.s.threads| && r.s.threads[t].phase.Finished?
    ensures i < |r.log| && r.log[i] == t
    ensures r.s.threads[t].phase.leaked <==> Misses(r, i)
  {
    hide Lin, Sequential, Apply, Before, AllIn;
    ReturnedGiven(h, r, t);
    i := LoggedOnce(r, t);
    GivenAt(r, i);
    assert LeakOk(r.s.threads[t]);
    if r.s.threads[t].op.MultiGet? {
      FailsIffMisses(r.s.threads[t].op, Before(r, i));
    }
  }

  /** In every run, an operation returned with its locks held if and only if it is a `MultiGet` one of whose keys is
      absent from the simple store at its place in the order. */
  lemma LeakIff(h: Hashing, events: seq<Event>, t: nat) returns (i: nat)
    requires h.Ok() && t < |RunOf(h, events).s.threads| && RunOf(h, events).s.threads[t].phase.Finished?
    ensures var r := RunOf(h, events);
            Listed(r) && i < |r.log| && r.log[i] == t && (r.s.threads[t].phase.leaked <==> Misses(r, i))
  {
    RunReachable(h, events);
    i := LeakedIff(h, RunOf(h, events), t);
  }

  /** No `MultiGet` of the order misses a key. */
  ghost predicate NoMiss(r: Run)
    requires Listed(r)
  {
    forall i: nat :: i < |r.log| ==> !Misses(r, i)
  }

  // ---------------------------------------------------------------------------------------
  // Who waits for ever

  /** The lock that a waiting thread wants. */
  function Wanted(h: Hashing, th: Thread): nat
    requires h.Ok() && th.phase.Locking? && th.phase.next < |Locks(h, th.op)|
  {
    Locks(h, th.op)[th.phase.next]
  }

  ghost predicate Waiting(h: Hashing, s: State, t: nat)
    requires Sized(h, s)
  {
    && t < |s.threads| && s.threads[t].phase.Locking? && s.threads[t].phase.next < |Locks(h, s.threads[t].op)|
    && !CanTake(s.locks[Wanted(h, s.threads[t])], Writes(s.threads[t].op))
  }

  /** The thread waits for a lock that a holder never gives back: because it returned with it, or is itself doomed. */
  ghost predicate Doomed(h: Hashing, s: State, t: nat)
    requires Sized(h, s)
    decreases if Waiting(h, s, t) then h.count - Wanted(h, s.threads[t]) else 0
  {
    && Waiting(h, s, t)
    && exists u: nat :: Holds(h, s, u, Wanted(h, s.threads[t])) && (s.threads[u].phase.Finished? || Blocks(h, s, t, u))
  }

  /** Thread `u`, which `t` waits for, is doomed; it wants a higher lock. */
  ghost predicate Blocks(h: Hashing, s: State, t: nat, u: nat)
    requires Sized(h, s) && Waiting(h, s, t)
    decreases h.count - Wanted(h, s.threads[t]), 0
  {
    Waiting(h, s, u) && Wanted(h, s.threads[t]) < Wanted(h, s.threads[u]) && Doomed(h, s, u)
  }

  lemma HolderBlocks(h: Hashing, s: State, b: nat, u: nat, write: bool)
    requires LockInv(h, s) && Holds(h, s, u, b) && (write || Writes(s.threads[u].op))
    ensures b < h.count && !CanTake(s.locks[b], write)
  {
    HeldInRange(h, s.threads[u], b);
    assert LockOk(h, s, b);
  }

  /** A reader is kept waiting by writers only. */
  lemma BlockerWrites(h: Hashing, s: State, t: nat, u: nat)
    requires LockInv(h, s) && Waiting(h, s, t) && Holds(h, s, u, Wanted(h, s.threads[t]))
    ensures Writes(s.threads[t].op) || Writes(s.threads[u].op)
  {
    assert LockOk(h, s, Wanted(h, s.threads[t]));
  }

  lemma WaitingStuck(h: Hashing, s: State, t: nat)
    requires Sized(h, s) && Waiting(h, s, t)
    ensures t < |s.threads| && !Enabled(h, s, t)
  {
  }

  lemma FinishedStuck(h: Hashing, s: State, u: nat, b: nat)
    requires Sized(h, s) && Holds(h, s, u, b) && s.threads[u].phase.Finished?
    ensures u < |s.threads| && !Enabled(h, s, u)
  {
  }

  lemma Unmoved(h: Hashing, r: Run, e: Event, t: nat)
    requires Sized(h, r.s) && t < |r.s.threads| && !Enabled(h, r.s, t)
    ensures t < |Act(h, r, e).s.threads| && Act(h, r, e).s.threads[t] == r.s.threads[t]
  {
  }

  /** Who waits for a holder that did not move still waits for it. */
  lemma StillWaits(h: Hashing, s: State, s': State, t: nat, u: nat)
    requires Sized(h, s) && LockInv(h, s') && Waiting(h, s, t) && Holds(h, s, u, Wanted(h, s.threads[t]))
    requires Writes(s.threads[t].op) || Writes(s.threads[u].op)
    requires t < |s'.threads| && s'.threads[t] == s.threads[t] && u < |s'.threads| && s'.threads[u] == s.threads[u]
    ensures Waiting(h, s', t) && Wanted(h, s'.threads[t]) == Wanted(h, s.threads[t])
              && Holds(h, s', u, Wanted(h, s.threads[t]))
  {
    HolderBlocks(h, s', Wanted(h, s.threads[t]), u, Writes(s.threads[t].op));
  }

  /** A doomed thread stays doomed, and does not move. */
  lemma {:induction false} DoomedAct(h: Hashing, r: Run, e: Event, t: nat)
    requires LockInv(h, r.s) && Doomed(h, r.s, t)
    ensures t < |r.s.threads| && t < |Act(h, r, e).s.threads|
    ensures Doomed(h, Act(h, r, e).s, t) && Act(h, r, e).s.threads[t] == r.s.threads[t]
    decreases h.count - Wanted(h, r.s.threads[t])
  {
    var s, s' := r.s, Act(h, r, e).s;
    hide Act, LockInv, Held, Waiting, Wanted, Holds, Locks, Enabled;
    WaitingStuck(h, s, t);
    Unmoved(h, r, e, t);
    var b := Wanted(h, s.threads[t]);
    var u: nat :| Holds(h, s, u, b) && (s.threads[u].phase.Finished? || Blocks(h, s, t, u));
    BlockerWrites(h, s, t, u);
    if Blocks(h, s, t, u) {
      DoomedAct(h, r, e, u);
    } else {
      FinishedStuck(h, s, u, b);
      Unmoved(h, r, e, u);
    }
    ActKeepsLocks(h, r, e);
    StillWaits(h, s, s', t, u);
  }

  lemma {:induction false} DoomedForEver(h: Hashing, r: Run, more: seq<Event>, t: nat)
    requires LockInv(h, r.s) && Doomed(h, r.s, t)
    ensures Doomed(h, Continue(h, r, more).s, t)
    ensures Continue(h, r, more).s.threads[t] == r.s.threads[t]
  {
    if more != [] {
      var front := more[..|more| - 1];
      DoomedForEver(h, r, front, t);
      ContinueKeepsLocks(h, r, front);
      DoomedAct(h, Continue(h, r, front), more[|more| - 1], t);
    }
  }

  /** Who is neither finished nor doomed can move, or waits for someone who can: follow the blockers, whose locks
      keep rising. */
  lemma {:induction false} Unblocked(h: Hashing, s: State, t: nat) returns (u: nat)
    requires LockInv(h, s) && Unfinished(s, t) && !Doomed(h, s, t)
    ensures Enabled(h, s, u)
    decreases if s.threads[t].phase.Locking? then h.count - Locks(h, s.threads[t].op)[s.threads[t].phase.next] else 0
  {
    var th := s.threads[t];
    assert PhaseOk(h, th);
    if Enabled(h, s, t) {
      u := t;
    } else {
      var b := Wanted(h, th);
      var w := Blocker(h, s, b, Writes(th.op));
      assert Waiting(h, s, t);
      if s.threads[w].phase.Locking? {
        assert PhaseOk(h, s.threads[w]);
        WaitsHigher(h, s.threads[w], b);
        if Waiting(h, s, w) {
          assert !Blocks(h, s, t, w);
          u := Unblocked(h, s, w);
        } else {
          u := w;
        }
      } else {
        u := w;
      }
    }
  }

  /** At the end of every chain of waiting is a lock that a finished operation holds. */
  lemma {:induction false} DoomedByLeak(h: Hashing, s: State, t: nat) returns (u: nat)
    requires LockInv(h, s) && Doomed(h, s, t)
    ensures u < |s.threads| && s.threads[u].phase.Finished? && s.threads[u].phase.leaked
    decreases h.count - Wanted(h, s.threads[t])
  {
    var b := Wanted(h, s.threads[t]);
    u :| Holds(h, s, u, b) && (s.threads[u].phase.Finished? || Blocks(h, s, t, u));
    if !s.threads[u].phase.Finished? {
      u := DoomedByLeak(h, s, u);
    }
  }

  /** Nobody is doomed while no `MultiGet` misses a key. */
  lemma NoneDoomed(h: Hashing, r: Run, t: nat)
    requires Reachable(h, r) && NoMiss(r)
    ensures !Doomed(h, r.s, t)
  {
    hide Lin, Sequential, Misses, Doomed;
    if Doomed(h, r.s, t) {
      var u := LeakerOf(h, r, t);
      var i := LeakedIff(h, r, u);
    }
  }

  lemma LeakerOf(h: Hashing, r: Run, t: nat) returns (u: nat)
    requires Lin(h, r) && Doomed(h, r.s, t)
    ensures u < |r.s.threads| && r.s.threads[u].phase.Finished? && r.s.threads[u].phase.leaked
  {
    u := DoomedByLeak(h, r.s, t);
  }

  /** No deadlock: in every state of every run in which no `MultiGet` misses a key, someone can move unless all
      operations have finished. */
  lemma NoDeadlock(h: Hashing, events: seq<Event>, t: nat)
    requires h.Ok() && Unfinished(RunOf(h, events).s, t)
    requires Listed(RunOf(h, events)) && NoMiss(RunOf(h, events))
    ensures exists u: nat :: Enabled(h, RunOf(h, events).s, u)
  {
    RunReachable(h, events);
    RunKeepsLocks(h, events);
    NoneDoomed(h, RunOf(h, events), t);
    var u := Unblocked(h, RunOf(h, events).s, t);
  }

  // ---------------------------------------------------------------------------------------
  // The end

  /** Nobody can move: every operation has returned or is doomed. */
  ghost predicate Settled(h: Hashing, s: State)
    requires Sized(h, s)
  {
    && (forall u: nat :: !Enabled(h, s, u))
    && forall t: nat :: t < |s.threads| ==> (s.threads[t].phase.Finished? <==> !Doomed(h, s, t))
  }

  lemma StillIsSettled(h: Hashing, s: State)
    requires LockInv(h, s) && forall u: nat :: !Enabled(h, s, u)
    ensures Settled(h, s)
  {
    forall t: nat | t < |s.threads|
      ensures s.threads[t].phase.Finished? <==> !Doomed(h, s, t)
    {
      if Unfinished(s, t) && !Doomed(h, s, t) {
        var u := Unblocked(h, s, t);
      }
    }
  }

  /** From every state the operations in progress can be brought to an end, in a bounded number of steps. */
  lemma {:induction false} Settle(h: Hashing, r: Run) returns (events: seq<Event>)
    requires Sized(h, r.s) && LockInv(h, r.s)
    ensures forall i :: 0 <= i < |events| ==> events[i].Advance?
    ensures |events| <= TotalLeft(h, r.s.threads)
    ensures LockInv(h, Continue(h, r, events).s) && Settled(h, Continue(h, r, events).s)
    decreases TotalLeft(h, r.s.threads)
  {
    hide *;
    events := [];
    ContinueNone(h, r);
    if exists u: nat :: Enabled(h, r.s, u) {
      var u: nat :| Enabled(h, r.s, u);
      var r' := Act(h, r, Advance(u));
      ActAdvance(h, r, u);
      NextKeepsLocks(h, r.s, u);
      StepsFall(h, r.s, u);
      var rest := Settle(h, r');
      events := [Advance(u)] + rest;
      ContinueFirst(h, r, Advance(u), rest);
    } else {
      StillIsSettled(h, r.s);
    }
  }

  /** From every state of every run: in a bounded number of steps, without new operations, nobody can move any more, and
      then an operation has returned if and only if it is not doomed. If no `MultiGet` has missed a key, all have
      returned. */
  lemma CanComplete(h: Hashing, events: seq<Event>) returns (more: seq<Event>)
    requires h.Ok()
    ensures forall i :: 0 <= i < |more| ==> more[i].Advance?
    ensures |more| <= TotalLeft(h, RunOf(h, events).s.threads)
    ensures var r' := Continue(h, RunOf(h, events), more);
            && Settled(h, r'.s) && Listed(r')
            && (NoMiss(r') ==> forall t: nat :: !Unfinished(r'.s, t))
  {
    var r := RunOf(h, events);
    RunReachable(h, events);
    RunKeepsLocks(h, events);
    more := Settle(h, r);
    ContinueReachable(h, r, more);
    var r' := Continue(h, r, more);
    if NoMiss(r') {
      forall t: nat
        ensures !Unfinished(r'.s, t)
      {
        NoneDoomed(h, r', t);
      }
    }
  }

  // ---------------------------------------------------------------------------------------
  // A put after a miss

  /** Thread `u` holds lock `b` and will never give it back. */
  ghost predicate Keeps(h: Hashing, s: State, u: nat, b: nat)
    requires Sized(h, s)
  {
    Holds(h, s, u, b) && (s.threads[u].phase.Finished? || Doomed(h, s, u))
  }

  /** In every run, a lock that a finished operation holds is that of a `MultiGet` that missed a key, and it is a lock
      of its keys. */
  lemma KeptByMiss(h: Hashing, events: seq<Event>, u: nat, b: nat) returns (i: nat)
    requires h.Ok() && Holds(h, RunOf(h, events).s, u, b) && RunOf(h, events).s.threads[u].phase.Finished?
    ensures var r := RunOf(h, events);
            Listed(r) && i < |r.log| && r.log[i] == u && Misses(r, i) && b in Locks(h, r.s.threads[u].op)
  {
    i := LeakIff(h, events, u);
  }

  lemma Begun(h: Hashing, r: Run, k: Key, v: Value)
    requires LockInv(h, r.s)
    ensures var r' := Act(h, r, Begin(Put(k, v)));
            && LockInv(h, r'.s) && r'.s.locks == r.s.locks
            && r'.s.threads == r.s.threads + [Thread(Put(k, v), Locking(0))] && Locks(h, Put(k, v)) == [h.BucketOf(k)]
  {
    StartKeepsLocks(h, r.s, Put(k, v));
  }

  /** A writer that waits for a lock which is kept is doomed. */
  lemma WriterDoomed(h: Hashing, s: State, t: nat, u: nat)
    requires LockInv(h, s) && t < |s.threads| && s.threads[t].phase.Locking? && Writes(s.threads[t].op)
    requires s.threads[t].phase.next < |Locks(h, s.threads[t].op)| && Keeps(h, s, u, Wanted(h, s.threads[t]))
    ensures Doomed(h, s, t)
  {
    HolderBlocks(h, s, Wanted(h, s.threads[t]), u, true);
    if !s.threads[u].phase.Finished? {
      assert PhaseOk(h, s.threads[u]);
      WaitsHigher(h, s.threads[u], Wanted(h, s.threads[t]));
      assert Blocks(h, s, t, u);
    }
  }

  lemma KeepsOn(h: Hashing, r: Run, e: Event, u: nat, b: nat)
    requires LockInv(h, r.s) && Keeps(h, r.s, u, b)
    ensures Keeps(h, Act(h, r, e).s, u, b)
  {
    hide Act, Doomed, Held;
    if r.s.threads[u].phase.Finished? {
      FinishedStuck(h, r.s, u, b);
      Unmoved(h, r, e, u);
    } else {
      DoomedAct(h, r, e, u);
    }
  }

  /** While somebody keeps the lock of its bucket, a `Put` that begins never returns. */
  lemma KeptStarvesPut(h: Hashing, r: Run, u: nat, k: Key, v: Value, more: seq<Event>)
    requires LockInv(h, r.s) && Keeps(h, r.s, u, h.BucketOf(k))
    ensures var ths, t := Continue(h, Act(h, r, Begin(Put(k, v))), more).s.threads, |r.s.threads|;
            t < |ths| && ths[t] == Thread(Put(k, v), Locking(0))
  {
    var r', t := Act(h, r, Begin(Put(k, v))), |r.s.threads|;
    Begun(h, r, k, v);
    KeepsOn(h, r, Begin(Put(k, v)), u, h.BucketOf(k));
    hide Act, LockInv, Keeps, Continue, Doomed;
    WriterDoomed(h, r'.s, t, u);
    DoomedForEver(h, r', more, t);
  }

  /** In every run: after a `MultiGet` has missed a key and returned, a `Put` to any key in a bucket of its keys never
      returns. */
  lemma LeakStarvesPut(h: Hashing, events: seq<Event>, i: nat, k: Key, v: Value, more: seq<Event>)
    requires h.Ok() && Listed(RunOf(h, events)) && i < |RunOf(h, events).log| && Misses(RunOf(h, events), i)
    requires var th := RunOf(h, events).s.threads[RunOf(h, events).log[i]];
             th.phase.Finished? && h.BucketOf(k) in Locks(h, th.op)
    ensures var r := RunOf(h, events);
            var ths, t := Continue(h, Act(h, r, Begin(Put(k, v))), more).s.threads, |r.s.threads|;
            t < |ths| && ths[t] == Thread(Put(k, v), Locking(0))
  {
    var r := RunOf(h, events);
    RunKeepsLocks(h, events);
    var j := LeakIff(h, events, r.log[i]);
    assert j == i;
    KeptStarvesPut(h, r, r.log[i], k, v, more);
  }

  /** Whoever cannot move in a settled state never moves again. */
  lemma {:induction false} SettledStays(h: Hashing, r: Run, more: seq<Event>, t: nat)
    requires LockInv(h, r.s) && Settled(h, r.s) && t < |r.s.threads|
    ensures t < |Continue(h, r, more).s.threads| && Continue(h, r, more).s.threads[t] == r.s.threads[t]
  {
    if r.s.threads[t].phase.Finished? {
      FinishedStays(h, r, more, t);
    } else {
      DoomedForEver(h, r, more, t);
    }
  }

  /** Finished operations stay as they are. */
  lemma {:induction false} FinishedStays(h: Hashing, r: Run, more: seq<Event>, t: nat)
    requires Sized(h, r.s) && t < |r.s.threads| && r.s.threads[t].phase.Finished?
    ensures t < |Continue(h, r, more).s.threads| && Continue(h, r, more).s.threads[t] == r.s.threads[t]
  {
    if more != [] {
      FinishedStays(h, r, more[..|more| - 1], t);
    }
  }

  lemma {:induction false} NoNewThreads(h: Hashing, r: Run, more: seq<Event>)
    requires Sized(h, r.s) && forall i :: 0 <= i < |more| ==> more[i].Advance?
    ensures |Continue(h, r, more).s.threads| == |r.s.threads|
    ensures forall u :: 0 <= u < |r.s.threads| ==> Continue(h, r, more).s.threads[u].op == r.s.threads[u].op
  {
    if more != [] {
      NoNewThreads(h, r, more[..|more| - 1]);
    }
  }

  /** Whoever dooms a put holds the lock of its bucket, and is another thread. */
  lemma PutDoomedBy(h: Hashing, s: State, t: nat, k: Key, v: Value) returns (u: nat)
    requires Sized(h, s) && Doomed(h, s, t) && s.threads[t].op == Put(k, v)
    ensures Holds(h, s, u, h.BucketOf(k)) && u != t
  {
    u :| Holds(h, s, u, Wanted(h, s.threads[t])) && (s.threads[u].phase.Finished? || Blocks(h, s, t, u));
  }

  /** A put begun in a settled state is doomed by those only who held the lock of its bucket before. */
  lemma PutDoomed(h: Hashing, r: Run, k: Key, v: Value, more: seq<Event>) returns (u: nat)
    requires LockInv(h, r.s) && Settled(h, r.s) && forall i :: 0 <= i < |more| ==> more[i].Advance?
    requires Doomed(h, Continue(h, Act(h, r, Begin(Put(k, v))), more).s, |r.s.threads|)
    ensures Holds(h, r.s, u, h.BucketOf(k))
  {
    var r', n := Act(h, r, Begin(Put(k, v))), |r.s.threads|;
    ContinueFirst(h, r, Begin(Put(k, v)), more);
    hide Act, Continue, Doomed, LockOk, Held, Settled;
    Begun(h, r, k, v);
    NoNewThreads(h, r', more);
    u := PutDoomedBy(h, Continue(h, r', more).s, n, k, v);
    SettledStays(h, r, [Begin(Put(k, v))] + more, u);
  }

  lemma SettledKeeps(h: Hashing, s: State, u: nat, b: nat)
    requires Sized(h, s) && Settled(h, s) && Holds(h, s, u, b)
    ensures Keeps(h, s, u, b)
  {
  }

  /** The converse: when nobody can move any more, a `Put` that begins can return if and only if nobody holds the lock
      of its bucket. Whoever holds one is a `MultiGet` that missed a key, or is doomed by one. */
  lemma PutCompletesIff(h: Hashing, events: seq<Event>, k: Key, v: Value)
    requires h.Ok() && Settled(h, RunOf(h, events).s)
    ensures var r := RunOf(h, events);
            (exists more: seq<Event> :: Returns(h, Act(h, r, Begin(Put(k, v))), more, |r.s.threads|))
            <==> forall u: nat :: !Holds(h, r.s, u, h.BucketOf(k))
  {
    var r := RunOf(h, events);
    var r', t := Act(h, r, Begin(Put(k, v))), |r.s.threads|;
    RunKeepsLocks(h, events);
    Begun(h, r, k, v);
    hide Act, Holds, LockInv;
    if u: nat :| Holds(h, r.s, u, h.BucketOf(k)) {
      SettledKeeps(h, r.s, u, h.BucketOf(k));
      forall more: seq<Event>
        ensures !Returns(h, r', more, t)
      {
        KeptStarvesPut(h, r, u, k, v, more);
      }
    } else {
      var more := Settle(h, r');
      NoNewThreads(h, r', more);
      if Doomed(h, Continue(h, r', more).s, t) {
        var u := PutDoomed(h, r, k, v, more);
      }
      assert Returns(h, r', more, t);
    }
  }

  ghost predicate Returns(h: Hashing, r: Run, more: seq<Event>, t: nat)
    requires Sized(h, r.s)
  {
    t < |Continue(h, r, more).s.threads| && Continue(h, r, more).s.threads[t].phase.Finished?
  }
}
