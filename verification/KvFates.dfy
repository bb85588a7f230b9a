/** Which operations of the concurrent store will never give their locks back, in any state of any run.

A `MultiGet` is fated when it has missed a key, in its body or already returned; when it holds the bucket of an
absent key, and so can only miss it; and when what it still needs is held by a fated operation. Every other operation
that holds a lock can be brought to an end, if need be with the help of new operations that put what it would miss.
 */
module KvFates {
  import opened SimpleKv
  import opened DbMaps
  import opened KvThreads
  import opened KvLocks
  import opened KvLinear
  import opened KvProgress

  /** A key of the `MultiGet` in bucket `b` is absent. */
  ghost predicate Lacks(h: Hashing, op: Op, m: Contents, b: nat)
    requires h.Ok()
  {
    op.MultiGet? && exists i :: 0 <= i < |op.keys| && h.BucketOf(op.keys[i]) == b && op.keys[i] !in m
  }

  /** Thread `w` holds lock `b`, and `u` cannot take it, or must not before something is put there. */
  ghost predicate Obstructs(h: Hashing, r: Run, u: nat, b: nat, w: nat)
    requires h.Ok() && u < |r.s.threads|
  {
    && Holds(h, r.s, w, b)
    && (Writes(r.s.threads[u].op) || Writes(r.s.threads[w].op) || Lacks(h, r.s.threads[u].op, r.contents, b))
  }

  /** How far a thread that takes locks is from the highest one. */
  ghost function Rank(h: Hashing, s: State, u: nat): nat
    requires h.Ok()
  {
    if u < |s.threads| && s.threads[u].phase.Locking? && s.threads[u].phase.next < |Locks(h, s.threads[u].op)|
    then h.count - Wanted(h, s.threads[u]) else 0
  }

  /** The thread will never release a lock that it holds. */
  ghost predicate Fated(h: Hashing, r: Run, u: nat)
    requires Sized(h, r.s)
    decreases Rank(h, r.s, u), 1
  {
    u < |r.s.threads| &&
    var th := r.s.threads[u];
    match th.phase
    case Finished(_, leaked) => leaked
    case Body(_, _) => th.op.MultiGet? && u in r.given && r.given[u] == Fail
    case Unlocking(_, _) => false
    case Locking(n) =>
      && n < |Locks(h, th.op)|
      && ((exists j :: 0 <= j < n && Lacks(h, th.op, r.contents, Locks(h, th.op)[j]))
          || exists j: nat, w: nat :: n <= j < |Locks(h, th.op)| && Bars(h, r, u, Locks(h, th.op)[j], w))
  }

  /** Thread `w`, which is fated, obstructs lock `b` for `u`. */
  ghost predicate Bars(h: Hashing, r: Run, u: nat, b: nat, w: nat)
    requires Sized(h, r.s) && u < |r.s.threads|
    decreases Rank(h, r.s, u), 0
  {
    Obstructs(h, r, u, b, w) && Rank(h, r.s, w) < Rank(h, r.s, u) && Fated(h, r, w)
  }

  // ---------------------------------------------------------------------------------------
  // One step

  lemma ActReachable(h: Hashing, r: Run, e: Event)
    requires Reachable(h, r)
    ensures Reachable(h, Act(h, r, e))
  {
    hide Reachable, Act;
    ContinueReachable(h, r, [e]);
    ContinueFirst(h, r, e, []);
    ContinueNone(h, Act(h, r, e));
    assert [e] + [] == [e];
  }

  ghost predicate Moves(h: Hashing, r: Run, e: Event, t: nat)
    requires Sized(h, r.s)
  {
    e == Advance(t) && Enabled(h, r.s, t)
  }

  /** A thread changes in its own steps only. */
  lemma ActThread(h: Hashing, r: Run, e: Event, u: nat)
    requires Reachable(h, r) && u < |r.s.threads|
    ensures var r' := Act(h, r, e);
            && u < |r'.s.threads| && r'.s.threads[u].op == r.s.threads[u].op
            && (Moves(h, r, e, u) ==> r'.s == Next(h, r.s, u))
            && (!Moves(h, r, e, u) ==> r'.s.threads[u] == r.s.threads[u])
            && (u in r.given ==> u in r'.given && r'.given[u] == r.given[u])
  {
    hide Lin, Sequential, LeaksOk, BodyStep, Locks;
  }

  /** A thread that waits and holds a lock wants a higher one. */
  lemma HolderRank(h: Hashing, s: State, w: nat, b: nat, u: nat)
    requires LockInv(h, s) && Holds(h, s, w, b) && u < |s.threads| && s.threads[u].phase.Locking?
    requires s.threads[u].phase.next < |Locks(h, s.threads[u].op)| && Wanted(h, s.threads[u]) <= b
    ensures Rank(h, s, w) < Rank(h, s, u)
  {
    assert PhaseOk(h, s.threads[w]);
    if s.threads[w].phase.Locking? {
      WaitsHigher(h, s.threads[w], b);
    }
  }

  lemma LaterLock(h: Hashing, op: Op, n: nat, j: nat)
    requires h.Ok() && n <= j < |Locks(h, op)|
    ensures Locks(h, op)[n] <= Locks(h, op)[j]
  {
  }

  /** What a fated thread that takes locks comes up against. */
  lemma BarsAt(h: Hashing, r: Run, u: nat, j: nat, w: nat)
    requires Reachable(h, r) && u < |r.s.threads| && r.s.threads[u].phase.Locking?
    requires r.s.threads[u].phase.next <= j < |Locks(h, r.s.threads[u].op)|
    requires Obstructs(h, r, u, Locks(h, r.s.threads[u].op)[j], w) && Fated(h, r, w)
    ensures Bars(h, r, u, Locks(h, r.s.threads[u].op)[j], w) && Fated(h, r, u)
  {
    hide Lin, History, LeaksOk, Locks, Held;
    var op := r.s.threads[u].op;
    LaterLock(h, op, r.s.threads[u].phase.next, j);
    LinLocks(h, r);
    HolderRank(h, r.s, w, Locks(h, op)[j], u);
  }

  lemma LinLocks(h: Hashing, r: Run)
    requires Reachable(h, r)
    ensures LockInv(h, r.s)
  {
  }

  /** Whoever is in conflict with a holder cannot take the lock. */
  lemma NotTaken(h: Hashing, s: State, u: nat, w: nat)
    requires LockInv(h, s) && u < |s.threads| && s.threads[u].phase.Locking? && Enabled(h, s, u)
    requires Holds(h, s, w, Wanted(h, s.threads[u]))
    ensures !Writes(s.threads[u].op) && !Writes(s.threads[w].op)
  {
    if Writes(s.threads[u].op) || Writes(s.threads[w].op) {
      HolderBlocks(h, s, Wanted(h, s.threads[u]), w, Writes(s.threads[u].op));
    }
  }

  /** A fated writer never takes its last lock. */
  lemma FatedWriterWaits(h: Hashing, r: Run, w: nat)
    requires Reachable(h, r) && Fated(h, r, w) && Writes(r.s.threads[w].op) && Enabled(h, r.s, w)
    ensures var th := r.s.threads[w]; th.phase.Locking? && th.phase.next + 1 < |Locks(h, th.op)|
  {
    hide Lin, History, LeaksOk, Locks, Held, LockInv;
    LinLocks(h, r);
    var th := r.s.threads[w];
    if th.phase.Locking? && th.phase.next + 1 == |Locks(h, th.op)| {
      var j: nat, x: nat :| th.phase.next <= j < |Locks(h, th.op)| && Bars(h, r, w, Locks(h, th.op)[j], x);
      NotTaken(h, r.s, w, x);
    }
  }

  /** While a fated thread holds its bucket, an absent key stays absent. */
  lemma Frozen(h: Hashing, r: Run, e: Event, w: nat, k: Key)
    requires Reachable(h, r) && Fated(h, r, w) && Holds(h, r.s, w, h.BucketOf(k)) && k !in r.contents
    ensures k !in Act(h, r, e).contents
  {
    hide Fated, Lin, History, LeaksOk, Held, LockInv, Apply;
    LinLocks(h, r);
    match e
    case Begin(op) =>
      if Locks(h, op) == [] {
        if k in Keys(op) {
          KeysLocked(h, op, k);
        }
        ApplyFrame(op, r.contents, k);
      }
    case Advance(t) =>
      if Enabled(h, r.s, t) && Act(h, r, e).contents != r.contents {
        FrozenAdvance(h, r, t, w, k);
      }
  }

  lemma FrozenAdvance(h: Hashing, r: Run, t: nat, w: nat, k: Key)
    requires Reachable(h, r) && Fated(h, r, w) && Holds(h, r.s, w, h.BucketOf(k)) && k !in r.contents
    requires Enabled(h, r.s, t) && r.s.threads[t].phase.Locking? && !Next(h, r.s, t).threads[t].phase.Locking?
    ensures k !in Apply(r.s.threads[t].op, r.contents).contents
  {
    hide Fated, Lin, History, LeaksOk, LockOk, Apply;
    var s', op := Next(h, r.s, t), r.s.threads[t].op;
    LinLocks(h, r);
    if k in Keys(op) && Writes(op) {
      KeysLocked(h, op, k);
      NextKeepsLocks(h, r.s, t);
      if t == w {
        FatedWriterWaits(h, r, w);
      } else {
        HoldsAfter(h, r.s, t, w, h.BucketOf(k));
        Exclusion(h, s', t, w, h.BucketOf(k));
      }
    } else {
      ApplyFrame(op, r.contents, k);
    }
  }

  lemma LacksOn(h: Hashing, r: Run, e: Event, op: Op, w: nat, b: nat)
    requires Reachable(h, r) && Fated(h, r, w) && Holds(h, r.s, w, b) && Lacks(h, op, r.contents, b)
    ensures Lacks(h, op, Act(h, r, e).contents, b)
  {
    hide Fated, Reachable, Act, Held;
    var i :| 0 <= i < |op.keys| && h.BucketOf(op.keys[i]) == b && op.keys[i] !in r.contents;
    Frozen(h, r, e, w, op.keys[i]);
  }

  // ---------------------------------------------------------------------------------------
  // Fate does not change

  /** In its body a fated thread goes on to miss its key. */
  lemma FatedBody(h: Hashing, r: Run, u: nat)
    requires Reachable(h, r) && Fated(h, r, u) && r.s.threads[u].phase.Body?
    ensures var r' := Act(h, r, Advance(u));
            && Fated(h, r', u) && u < |r'.s.threads| && Held(h, r'.s.threads[u]) == Held(h, r.s.threads[u])
  {
    hide Sequential, BodyStep, Locks;
    var r' := Act(h, r, Advance(u));
    ActThread(h, r, Advance(u), u);
    ActReachable(h, r, Advance(u));
    assert LinAt(h, r', u) && LeakOk(r'.s.threads[u]);
    assert !r'.s.threads[u].phase.Locking?;
  }

  /** With a key absent from a bucket that it holds, a `MultiGet` cannot but fail. */
  lemma LackFails(h: Hashing, op: Op, m: Contents, b: nat)
    requires h.Ok() && Lacks(h, op, m, b)
    ensures Apply(op, m) == Outcome(Fail, m)
  {
  }

  /** The locks that a thread holds after it took one more. */
  lemma TakesOne(h: Hashing, r: Run, u: nat)
    requires Reachable(h, r) && Enabled(h, r.s, u) && r.s.threads[u].phase.Locking?
    ensures var th, r' := r.s.threads[u], Act(h, r, Advance(u));
            && u < |r'.s.threads|
            && r'.s.threads[u] == Thread(th.op, AfterLock(Locks(h, th.op), th.phase.next + 1))
            && (forall b :: b in Held(h, th) ==> b in Held(h, r'.s.threads[u]))
            && (r'.s.threads[u].phase.Body? ==>
                u in r'.given && r'.given[u] == Apply(th.op, r.contents).answer
                && r'.contents == Apply(th.op, r.contents).contents)
            && (r'.s.threads[u].phase.Locking? ==> r'.contents == r.contents && r'.given == r.given)
  {
    hide Lin, History, LeaksOk, Apply, LockOk;
    LinLocks(h, r);
    HeldAfter(h, r.s, u);
  }

  /** Why a thread that takes locks is fated. */
  lemma WhyFated(h: Hashing, r: Run, u: nat) returns (j: nat, w: nat)
    requires Sized(h, r.s) && Fated(h, r, u) && r.s.threads[u].phase.Locking?
    ensures var th := r.s.threads[u];
            && j < |Locks(h, th.op)| && th.phase.next < |Locks(h, th.op)|
            && if j < th.phase.next then Lacks(h, th.op, r.contents, Locks(h, th.op)[j])
               else Bars(h, r, u, Locks(h, th.op)[j], w)
  {
    hide Lacks, Locks;
    var th := r.s.threads[u];
    w := 0;
    if i :| 0 <= i < th.phase.next && Lacks(h, th.op, r.contents, Locks(h, th.op)[i]) {
      j := i;
    } else {
      j, w :| th.phase.next <= j < |Locks(h, th.op)| && Bars(h, r, u, Locks(h, th.op)[j], w);
    }
  }

  /** A fated thread that takes a lock misses a key in a bucket that it holds then, or is barred further on. */
  lemma FatedTakes(h: Hashing, r: Run, u: nat) returns (j: nat, w: nat)
    requires Reachable(h, r) && Fated(h, r, u) && Enabled(h, r.s, u) && r.s.threads[u].phase.Locking?
    ensures var th := r.s.threads[u];
            && j < |Locks(h, th.op)|
            && if j <= th.phase.next then Lacks(h, th.op, r.contents, Locks(h, th.op)[j])
               else Bars(h, r, u, Locks(h, th.op)[j], w)
  {
    hide Lin, History, LeaksOk, Locks, Held, LockInv, Lacks;
    LinLocks(h, r);
    j, w := WhyFated(h, r, u);
    if j == r.s.threads[u].phase.next {
      NotTaken(h, r.s, u, w);
    }
  }

  lemma LacksIsFate(h: Hashing, r: Run, u: nat, j: nat)
    requires Sized(h, r.s) && u < |r.s.threads| && r.s.threads[u].phase.Locking?
    requires j < r.s.threads[u].phase.next < |Locks(h, r.s.threads[u].op)|
    requires Lacks(h, r.s.threads[u].op, r.contents, Locks(h, r.s.threads[u].op)[j])
    ensures Fated(h, r, u)
  {
    hide Lacks, Locks;
  }

  /** A fated thread stays fated, and releases nothing. */
  lemma {:induction false} FatedAct(h: Hashing, r: Run, e: Event, u: nat)
    requires Reachable(h, r) && Fated(h, r, u)
    ensures var r' := Act(h, r, e);
            && Fated(h, r', u) && u < |r'.s.threads| && forall b: nat :: Holds(h, r.s, u, b) ==> Holds(h, r'.s, u, b)
    decreases Rank(h, r.s, u)
  {
    hide Lin, History, LeaksOk, Locks, Held, LockInv, Lacks, Act;
    var r' := Act(h, r, e);
    ActThread(h, r, e, u);
    ActReachable(h, r, e);
    if Moves(h, r, e, u) {
      FatedMoves(h, r, u);
      if r.s.threads[u].phase.Locking? {
        var j, w := FatedTakes(h, r, u);
        if j > r.s.threads[u].phase.next {
          FatedAct(h, r, e, w);
          BarredOn(h, r, e, u, j, w);
        } else {
          assert LacksUpTo(h, r, u, j);
        }
      }
    } else if r.s.threads[u].phase.Locking? {
      var th := r.s.threads[u];
      var j, w := WhyFated(h, r, u);
      if j < th.phase.next {
        HoldsEarlier(h, r.s, u, j);
        LacksOn(h, r, e, th.op, u, Locks(h, th.op)[j]);
        LacksIsFate(h, r', u, j);
      } else {
        FatedAct(h, r, e, w);
        BarredOn(h, r, e, u, j, w);
      }
    }
  }

  lemma HoldsEarlier(h: Hashing, s: State, u: nat, j: nat)
    requires h.Ok() && u < |s.threads| && s.threads[u].phase.Locking?
    requires j < s.threads[u].phase.next < |Locks(h, s.threads[u].op)|
    ensures Holds(h, s, u, Locks(h, s.threads[u].op)[j])
  {
    var ls, n := Locks(h, s.threads[u].op), s.threads[u].phase.next;
    assert ls[..n][j] == ls[j];
  }

  /** What bars a thread goes on to bar it. */
  lemma BarredOn(h: Hashing, r: Run, e: Event, u: nat, j: nat, w: nat)
    requires Reachable(h, r) && u < |r.s.threads| && r.s.threads[u].phase.Locking?
    requires r.s.threads[u].phase.next <= j < |Locks(h, r.s.threads[u].op)|
    requires Bars(h, r, u, Locks(h, r.s.threads[u].op)[j], w)
    requires var r' := Act(h, r, e);
             && Fated(h, r', w) && Holds(h, r'.s, w, Locks(h, r.s.threads[u].op)[j])
             && u < |r'.s.threads| && r'.s.threads[u].op == r.s.threads[u].op && r'.s.threads[u].phase.Locking?
             && r'.s.threads[u].phase.next <= j
    ensures Fated(h, Act(h, r, e), u)
  {
    hide Lin, History, LeaksOk, Locks, Held, LockInv, Lacks, Act;
    var r', op := Act(h, r, e), r.s.threads[u].op;
    var b := Locks(h, op)[j];
    ActReachable(h, r, e);
    ActThread(h, r, e, w);
    if Lacks(h, op, r.contents, b) {
      LacksOn(h, r, e, op, w, b);
    }
    BarsAt(h, r', u, j, w);
  }

  /** A key in bucket number `j`, held or just wanted, is absent. */
  ghost predicate LacksUpTo(h: Hashing, r: Run, u: nat, j: nat)
    requires h.Ok() && u < |r.s.threads| && r.s.threads[u].phase.Locking?
  {
    var th := r.s.threads[u];
    j <= th.phase.next && j < |Locks(h, th.op)| && Lacks(h, th.op, r.contents, Locks(h, th.op)[j])
  }

  /** The step of a fated thread: it releases nothing; and unless it is barred further on, it is fated afterwards. */
  lemma FatedMoves(h: Hashing, r: Run, u: nat)
    requires Reachable(h, r) && Fated(h, r, u) && Enabled(h, r.s, u)
    ensures var th, r' := r.s.threads[u], Act(h, r, Advance(u));
            && u < |r'.s.threads| && (forall b: nat :: Holds(h, r.s, u, b) ==> Holds(h, r'.s, u, b))
            && (th.phase.Locking? ==> r'.s.threads[u] == Thread(th.op, AfterLock(Locks(h, th.op), th.phase.next + 1)))
            && (!th.phase.Locking? ==> Fated(h, r', u))
            && (th.phase.Locking? ==>
                  forall j: nat :: LacksUpTo(h, r, u, j) ==> Fated(h, r', u))
  {
    hide Lin, History, LeaksOk, Locks, LockInv, Lacks, Act, Apply, Held;
    if r.s.threads[u].phase.Body? {
      FatedBody(h, r, u);
    } else {
      TakesOne(h, r, u);
      var th, r' := r.s.threads[u], Act(h, r, Advance(u));
      forall j: nat | LacksUpTo(h, r, u, j)
        ensures Fated(h, r', u)
      {
        LackFails(h, th.op, r.contents, Locks(h, th.op)[j]);
        if r'.s.threads[u].phase.Locking? {
          LacksIsFate(h, r', u, j);
        } else {
          LacksMeans(h, th.op, r.contents, Locks(h, th.op)[j]);
        }
      }
    }
  }

  lemma LacksMeans(h: Hashing, op: Op, m: Contents, b: nat)
    requires h.Ok() && Lacks(h, op, m, b)
    ensures op.MultiGet?
  {
  }

  lemma {:induction false} FatedForEver(h: Hashing, r: Run, more: seq<Event>, u: nat)
    requires Reachable(h, r) && Fated(h, r, u)
    ensures var r' := Continue(h, r, more);
            && Reachable(h, r') && Fated(h, r', u) && forall b: nat :: Holds(h, r.s, u, b) ==> Holds(h, r'.s, u, b)
  {
    hide Lin, History, LeaksOk, Fated, Act, Holds;
    if more != [] {
      var front := more[..|more| - 1];
      FatedForEver(h, r, front, u);
      FatedAct(h, Continue(h, r, front), more[|more| - 1], u);
      ActReachable(h, Continue(h, r, front), more[|more| - 1]);
    }
  }

  // ---------------------------------------------------------------------------------------
  // Whoever is not fated can be brought to an end

  /** The operation has returned, without keeping its locks. */
  ghost predicate Returned(r: Run, t: nat) {
    t < |r.s.threads| && r.s.threads[t].phase.Finished? && !r.s.threads[t].phase.leaked
  }

  /** The thread is where it was. */
  ghost predicate Same(r: Run, r': Run, t: nat) {
    && t < |r.s.threads| && t < |r'.s.threads| && r'.s.threads[t] == r.s.threads[t]
    && (t in r.given ==> t in r'.given && r'.given[t] == r.given[t])
  }

  ghost predicate Grows(m: Contents, m': Contents) {
    forall k :: k in m ==> k in m'
  }

  /** Each operation is where it was or has returned, all new ones have returned, and no key was taken away. */
  ghost predicate Eases(h: Hashing, r: Run, r': Run) {
    && Reachable(h, r') && |r.s.threads| <= |r'.s.threads| && Grows(r.contents, r'.contents)
    && (forall t: nat :: t < |r.s.threads| ==> Same(r, r', t) || Returned(r', t))
    && forall t: nat :: |r.s.threads| <= t < |r'.s.threads| ==> Returned(r', t)
  }

  lemma EasesNow(h: Hashing, r: Run)
    requires Reachable(h, r)
    ensures Eases(h, r, r)
  {
  }

  lemma EasesTrans(h: Hashing, r: Run, r1: Run, r2: Run)
    requires Eases(h, r, r1) && Eases(h, r1, r2)
    ensures Eases(h, r, r2)
  {
    hide Reachable;
    forall t: nat | t < |r.s.threads|
      ensures Same(r, r2, t) || Returned(r2, t)
    {
      assert Same(r, r1, t) || Returned(r1, t);
      assert Same(r1, r2, t) || Returned(r2, t);
    }
    forall t: nat | |r.s.threads| <= t < |r2.s.threads|
      ensures Returned(r2, t)
    {
      if t < |r1.s.threads| {
        assert Returned(r1, t);
        assert Same(r1, r2, t) || Returned(r2, t);
      }
    }
  }

  /** Only thread `u` is elsewhere. */
  ghost predicate OnlyMoves(r: Run, r': Run, u: nat) {
    && |r.s.threads| <= |r'.s.threads| <= |r.s.threads| + 1 && u < |r'.s.threads|
    && (|r'.s.threads| > |r.s.threads| ==> u == |r.s.threads|)
    && Grows(r.contents, r'.contents) && forall t: nat :: t < |r.s.threads| && t != u ==> Same(r, r', t)
  }

  lemma EasesAround(h: Hashing, r: Run, r1: Run, r2: Run, u: nat)
    requires OnlyMoves(r, r1, u) && Eases(h, r1, r2) && Returned(r2, u)
    ensures Eases(h, r, r2)
  {
    hide Reachable;
    forall t: nat | t < |r.s.threads|
      ensures Same(r, r2, t) || Returned(r2, t)
    {
      if t != u {
        assert Same(r, r1, t);
        assert Same(r1, r2, t) || Returned(r2, t);
      }
    }
    forall t: nat | |r.s.threads| <= t < |r2.s.threads|
      ensures Returned(r2, t)
    {
    }
  }

  // ---------------------------------------------------------------------------------------
  // Fate is not made worse

  /** Whoever holds a lock held it before, and no key was taken away. */
  ghost predicate Softens(h: Hashing, r: Run, r': Run) {
    && Sized(h, r.s) && Sized(h, r'.s) && Grows(r.contents, r'.contents)
    && forall t: nat, b: nat :: Holds(h, r'.s, t, b) ==> Same(r, r', t)
  }

  lemma LacksBefore(h: Hashing, op: Op, m: Contents, m': Contents, b: nat)
    requires h.Ok() && Grows(m, m') && Lacks(h, op, m', b)
    ensures Lacks(h, op, m, b)
  {
    var i :| 0 <= i < |op.keys| && h.BucketOf(op.keys[i]) == b && op.keys[i] !in m';
    assert op.keys[i] !in m;
  }

  lemma ObstructsBefore(h: Hashing, r: Run, r': Run, u: nat, b: nat, w: nat)
    requires Softens(h, r, r') && Same(r, r', u) && Obstructs(h, r', u, b, w)
    ensures Same(r, r', w) && Obstructs(h, r, u, b, w)
  {
    hide Held, Lacks, Locks;
    if Lacks(h, r'.s.threads[u].op, r'.contents, b) {
      LacksBefore(h, r.s.threads[u].op, r.contents, r'.contents, b);
    }
  }

  /** A thread that is where it was and is fated now was fated before. */
  lemma {:induction false} FatedBefore(h: Hashing, r: Run, r': Run, t: nat)
    requires Reachable(h, r) && Softens(h, r, r') && Same(r, r', t) && Fated(h, r', t)
    ensures Fated(h, r, t)
    decreases Rank(h, r.s, t)
  {
    hide Lin, Sequential, LeaksOk, Held, Lacks, Locks, Obstructs, Grows;
    var th := r.s.threads[t];
    if th.phase.Locking? {
      var j, w := WhyFated(h, r', t);
      if j < th.phase.next {
        LacksBefore(h, th.op, r.contents, r'.contents, Locks(h, th.op)[j]);
      } else {
        ObstructsBefore(h, r, r', t, Locks(h, th.op)[j], w);
        FatedBefore(h, r, r', w);
        assert Bars(h, r, t, Locks(h, th.op)[j], w);
      }
    }
  }

  lemma EasesSoftens(h: Hashing, r: Run, r': Run)
    requires Sized(h, r.s) && Eases(h, r, r')
    ensures Softens(h, r, r')
  {
    hide Lin, History, LeaksOk, Grows, Same;
    forall t: nat, b: nat | Holds(h, r'.s, t, b)
      ensures Same(r, r', t)
    {
      assert !Returned(r', t);
    }
  }

  // ---------------------------------------------------------------------------------------
  // Running a body to its end

  /** A step outside the taking of locks. */
  lemma StepsOn(h: Hashing, r: Run, u: nat)
    requires Reachable(h, r) && u < |r.s.threads| && (r.s.threads[u].phase.Body? || r.s.threads[u].phase.Unlocking?)
    requires !Fated(h, r, u)
    ensures var r' := Act(h, r, Advance(u));
            && Reachable(h, r') && OnlyMoves(r, r', u) && u < |r'.s.threads| && !Fated(h, r', u)
            && !r'.s.threads[u].phase.Locking?
            && StepsLeft(h, r'.s.threads[u]) < StepsLeft(h, r.s.threads[u])
  {
    hide Sequential, BodyStep, Locks, Rest;
    var r' := Act(h, r, Advance(u));
    ActReachable(h, r, Advance(u));
    ActThread(h, r, Advance(u), u);
    forall t: nat | t < |r.s.threads| && t != u
      ensures Same(r, r', t)
    {
      ActThread(h, r, Advance(u), t);
    }
    StepShortens(h, r.s, u);
    assert LinAt(h, r, u) && LinAt(h, r', u) && LeakOk(r'.s.threads[u]);
  }

  lemma StepShortens(h: Hashing, s: State, u: nat)
    requires LockInv(h, s) && Enabled(h, s, u)
    ensures StepsLeft(h, Next(h, s, u).threads[u]) < StepsLeft(h, s.threads[u])
  {
    assert PhaseOk(h, s.threads[u]);
  }

  lemma {:induction false} RunOut(h: Hashing, r: Run, u: nat) returns (more: seq<Event>)
    requires Reachable(h, r) && u < |r.s.threads| && !r.s.threads[u].phase.Locking? && !Fated(h, r, u)
    ensures var r' := Continue(h, r, more); Eases(h, r, r') && Returned(r', u)
    decreases StepsLeft(h, r.s.threads[u])
  {
    hide Lin, History, LeaksOk, Act, StepsLeft, Locks, OnlyMoves, Eases;
    if r.s.threads[u].phase.Finished? {
      more := [];
      ContinueNone(h, r);
      EasesNow(h, r);
    } else {
      var r1 := Act(h, r, Advance(u));
      StepsOn(h, r, u);
      var rest := RunOut(h, r1, u);
      more := [Advance(u)] + rest;
      ContinueFirst(h, r, Advance(u), rest);
      EasesAround(h, r, r1, Continue(h, r1, rest), u);
    }
  }

  // ---------------------------------------------------------------------------------------
  // Putting what would be missed

  /** Events one after the other. */
  lemma {:induction false} ContinueMore(h: Hashing, r: Run, a: seq<Event>, b: seq<Event>)
    requires Sized(h, r.s)
    ensures Continue(h, r, a + b) == Continue(h, Continue(h, r, a), b)
    decreases |b|
  {
    hide Act;
    if b == [] {
      assert a + b == a;
    } else {
      ContinueMore(h, r, a, b[..|b| - 1]);
      assert (a + b)[..|a + b| - 1] == a + b[..|b| - 1];
    }
  }

  lemma BeginsAlone(h: Hashing, r: Run, k: Key, v: Value)
    requires Reachable(h, r)
    ensures var r', t := Act(h, r, Begin(Put(k, v))), |r.s.threads|;
            && Reachable(h, r') && OnlyMoves(r, r', t) && r'.contents == r.contents && r'.s.locks == r.s.locks
            && r'.s.threads == r.s.threads + [Thread(Put(k, v), Locking(0))] && Locks(h, Put(k, v)) == [h.BucketOf(k)]
            && Softens(h, r, r')
  {
    hide Lin, Sequential, LeaksOk;
    ActReachable(h, r, Begin(Put(k, v)));
  }

  /** A put to a bucket that nobody holds, from its beginning to its end. */
  lemma PutThrough(h: Hashing, r: Run, k: Key, v: Value) returns (more: seq<Event>)
    requires Reachable(h, r) && r.s.locks[h.BucketOf(k)].Open?
    ensures var r' := Continue(h, r, more); Eases(h, r, r') && k in r'.contents
  {
    hide Lin, History, LeaksOk, Act, Continue, Eases, Fated, Held;
    var t, e := |r.s.threads|, Begin(Put(k, v));
    var r1 := Act(h, r, e);
    BeginsAlone(h, r, k, v);
    var r2 := Act(h, r1, Advance(t));
    TakesOne(h, r1, t);
    ActReachable(h, r1, Advance(t));
    MovesAlone(h, r1, t);
    WriterIsFree(h, r2, t);
    var rest := RunOut(h, r2, t);
    more := [e] + ([Advance(t)] + rest);
    ContinueFirst(h, r, e, [Advance(t)] + rest);
    ContinueFirst(h, r1, Advance(t), rest);
    var r' := Continue(h, r2, rest);
    OnlyMovesTwice(r, r1, r2, t);
    EasesAround(h, r, r2, r', t);
    EasesGrows(h, r2, r');
  }

  lemma EasesGrows(h: Hashing, r: Run, r': Run)
    requires Eases(h, r, r')
    ensures Grows(r.contents, r'.contents)
  {
  }

  lemma OnlyMovesTwice(r: Run, r1: Run, r2: Run, u: nat)
    requires OnlyMoves(r, r1, u) && OnlyMoves(r1, r2, u) && |r2.s.threads| == |r1.s.threads|
    ensures OnlyMoves(r, r2, u)
  {
    forall t: nat | t < |r.s.threads| && t != u
      ensures Same(r, r2, t)
    {
      assert Same(r, r1, t) && Same(r1, r2, t);
    }
  }

  lemma WriterIsFree(h: Hashing, r: Run, t: nat)
    requires Sized(h, r.s) && t < |r.s.threads| && Writes(r.s.threads[t].op) && r.s.threads[t].phase.Body?
    ensures !Fated(h, r, t)
  {
  }

  /** The operations that take no key away. */
  predicate Adds(op: Op) {
    op.Put? || op.MultiGet? || op.MultiPut?
  }

  lemma {:induction false} PutFirstGrows(m: Contents, ks: seq<Key>, vs: seq<Value>, n: nat)
    requires n <= |ks| && n <= |vs|
    ensures Grows(m, PutFirst(m, ks, vs, n))
  {
    if n > 0 {
      PutFirstGrows(m, ks, vs, n - 1);
    }
  }

  lemma AddsGrows(op: Op, m: Contents)
    requires Adds(op)
    ensures Grows(m, Apply(op, m).contents)
  {
    if op.MultiPut? && |op.keys| == |op.values| {
      PutFirstGrows(m, op.keys, op.values, |op.keys|);
    }
  }

  /** Taking a lock changes nothing for the others. */
  lemma MovesAlone(h: Hashing, r: Run, u: nat)
    requires Reachable(h, r) && Enabled(h, r.s, u) && r.s.threads[u].phase.Locking? && Adds(r.s.threads[u].op)
    ensures var r' := Act(h, r, Advance(u)); OnlyMoves(r, r', u) && |r'.s.threads| == |r.s.threads|
  {
    hide Lin, History, LeaksOk, Locks, Held, Apply, Act, Grows;
    var r' := Act(h, r, Advance(u));
    TakesOne(h, r, u);
    AddsGrows(r.s.threads[u].op, r.contents);
    GrowsNow(r.contents);
    ActThread(h, r, Advance(u), u);
    forall t: nat | t < |r.s.threads| && t != u
      ensures Same(r, r', t)
    {
      ActThread(h, r, Advance(u), t);
    }
  }

  lemma GrowsNow(m: Contents)
    ensures Grows(m, m)
  {
  }

  /** The keys of the operation that are absent. */
  ghost function AbsentKeys(op: Op, m: Contents): set<Key> {
    if op.MultiGet? then set k | k in op.keys && k !in m else {}
  }

  /** Nothing obstructs the lock that `u` wants. */
  ghost predicate Unobstructed(h: Hashing, r: Run, u: nat, b: nat)
    requires h.Ok() && u < |r.s.threads|
  {
    forall w: nat :: !Obstructs(h, r, u, b, w)
  }

  lemma UnobstructedOn(h: Hashing, r: Run, r': Run, u: nat, b: nat)
    requires Softens(h, r, r') && Same(r, r', u) && Unobstructed(h, r, u, b)
    ensures Unobstructed(h, r', u, b)
  {
    hide Obstructs;
    forall w: nat
      ensures !Obstructs(h, r', u, b, w)
    {
      if Obstructs(h, r', u, b, w) {
        ObstructsBefore(h, r, r', u, b, w);
      }
    }
  }

  /** With an absent key in the bucket, unobstructed means that nobody holds it. */
  lemma NobodyHolds(h: Hashing, r: Run, u: nat, b: nat)
    requires Reachable(h, r) && u < |r.s.threads| && b < h.count && Unobstructed(h, r, u, b)
    requires Lacks(h, r.s.threads[u].op, r.contents, b)
    ensures r.s.locks[b].Open?
  {
    hide Held, Lacks, History, LeaksOk, Obstructs;
    LinLocks(h, r);
    if !r.s.locks[b].Open? {
      var w := Blocker(h, r.s, b, true);
      HolderObstructs(h, r, u, b, w);
    }
  }

  lemma HolderObstructs(h: Hashing, r: Run, u: nat, b: nat, w: nat)
    requires h.Ok() && u < |r.s.threads| && Holds(h, r.s, w, b)
    requires Writes(r.s.threads[u].op) || Writes(r.s.threads[w].op) || Lacks(h, r.s.threads[u].op, r.contents, b)
    ensures Obstructs(h, r, u, b, w)
  {
  }

  /** The keys that `u` would miss in the bucket it wants are put there. */
  lemma {:induction false} FillKeys(h: Hashing, r: Run, u: nat, b: nat) returns (more: seq<Event>)
    requires Reachable(h, r) && u < |r.s.threads| && b < h.count && Unobstructed(h, r, u, b)
    ensures var r' := Continue(h, r, more);
            && Eases(h, r, r')
            && (Returned(r', u) || (Same(r, r', u) && Unobstructed(h, r', u, b)
                                    && !Lacks(h, r.s.threads[u].op, r'.contents, b)))
    decreases |AbsentKeys(r.s.threads[u].op, r.contents)|
  {
    hide Lin, History, LeaksOk, Act, Eases, Unobstructed, Obstructs, Softens;
    var op := r.s.threads[u].op;
    if Lacks(h, op, r.contents, b) {
      var i :| 0 <= i < |op.keys| && h.BucketOf(op.keys[i]) == b && op.keys[i] !in r.contents;
      NobodyHolds(h, r, u, b);
      var a := PutThrough(h, r, op.keys[i], "");
      var r1 := Continue(h, r, a);
      EasesSoftens(h, r, r1);
      EasesParts(h, r, r1, u);
      if Returned(r1, u) {
        more := a;
      } else {
        UnobstructedOn(h, r, r1, u, b);
        FewerAbsent(op, r.contents, r1.contents, op.keys[i]);
        var rest := FillKeys(h, r1, u, b);
        more := a + rest;
        ContinueMore(h, r, a, rest);
        var r2 := Continue(h, r1, rest);
        EasesTrans(h, r, r1, r2);
      }
    } else {
      more := [];
      ContinueNone(h, r);
      EasesNow(h, r);
    }
  }

  lemma EasesParts(h: Hashing, r: Run, r': Run, u: nat)
    requires Eases(h, r, r') && u < |r.s.threads|
    ensures Reachable(h, r') && (Same(r, r', u) || Returned(r', u)) && Grows(r.contents, r'.contents)
  {
  }

  lemma FewerAbsent(op: Op, m: Contents, m': Contents, k: Key)
    requires op.MultiGet? && Grows(m, m') && k in op.keys && k !in m && k in m'
    ensures |AbsentKeys(op, m')| < |AbsentKeys(op, m)|
  {
    assert k in AbsentKeys(op, m) && AbsentKeys(op, m') <= AbsentKeys(op, m) - {k};
    Smaller(AbsentKeys(op, m'), AbsentKeys(op, m) - {k});
  }

  lemma {:induction false} Smaller<T>(a: set<T>, b: set<T>)
    requires a <= b
    ensures |a| <= |b|
  {
    if a != {} {
      var x :| x in a;
      Smaller(a - {x}, b - {x});
    }
  }

  // ---------------------------------------------------------------------------------------
  // The way to the end

  /** A thread that holds a lock and takes more is an operation on several keys. */
  lemma HolderAdds(h: Hashing, s: State, w: nat, b: nat)
    requires h.Ok() && Holds(h, s, w, b) && PhaseOk(h, s.threads[w])
    ensures s.threads[w].phase.Locking? ==> Adds(s.threads[w].op)
  {
  }

  /** The threads that hold a lock. */
  ghost function HolderSet(h: Hashing, s: State, b: nat): set<nat>
    requires h.Ok()
  {
    set t: nat | t < |s.threads| && b in Held(h, s.threads[t])
  }

  lemma FewerHolders(h: Hashing, r: Run, r': Run, b: nat, w: nat)
    requires Softens(h, r, r') && Holds(h, r.s, w, b) && Returned(r', w)
    ensures |HolderSet(h, r'.s, b)| < |HolderSet(h, r.s, b)|
  {
    hide Grows, Locks;
    var now, before := HolderSet(h, r'.s, b), HolderSet(h, r.s, b);
    forall t: nat | t in now
      ensures t in before && t != w
    {
      assert Holds(h, r'.s, t, b);
    }
    assert w in before && now <= before - {w};
    Smaller(now, before - {w});
  }

  lemma SameRank(h: Hashing, r: Run, r': Run, u: nat)
    requires h.Ok() && Same(r, r', u)
    ensures Rank(h, r'.s, u) == Rank(h, r.s, u)
  {
  }

  /** What `u` comes up against at the lock that it wants is not fated, unless `u` is. */
  lemma NotBarred(h: Hashing, r: Run, u: nat, w: nat)
    requires Reachable(h, r) && u < |r.s.threads| && r.s.threads[u].phase.Locking? && !Fated(h, r, u)
    requires r.s.threads[u].phase.next < |Locks(h, r.s.threads[u].op)|
    requires Obstructs(h, r, u, Wanted(h, r.s.threads[u]), w)
    ensures !Fated(h, r, w) && Rank(h, r.s, w) < Rank(h, r.s, u)
  {
    hide Fated, Lin, History, LeaksOk, Held, Locks;
    LinLocks(h, r);
    HolderRank(h, r.s, w, Wanted(h, r.s.threads[u]), u);
    if Fated(h, r, w) {
      BarsAt(h, r, u, r.s.threads[u].phase.next, w);
    }
  }

  /** With nothing in the way, a thread takes the lock that it wants. */
  lemma CanMove(h: Hashing, r: Run, u: nat)
    requires Reachable(h, r) && u < |r.s.threads| && r.s.threads[u].phase.Locking?
    requires r.s.threads[u].phase.next < |Locks(h, r.s.threads[u].op)|
    requires Unobstructed(h, r, u, Wanted(h, r.s.threads[u]))
    ensures Enabled(h, r.s, u)
  {
    hide Lin, History, LeaksOk, Held, Locks, LockOk, Obstructs, Lacks;
    LinLocks(h, r);
    if !Enabled(h, r.s, u) {
      var w := Blocker(h, r.s, Wanted(h, r.s.threads[u]), Writes(r.s.threads[u].op));
      BlockerWrites(h, r.s, u, w);
      HolderObstructs(h, r, u, Wanted(h, r.s.threads[u]), w);
    }
  }

  /** The buckets above `c` are held as before. */
  ghost predicate SameAboveLock(h: Hashing, r: Run, r': Run, u: nat, c: nat) {
    && Sized(h, r.s) && Sized(h, r'.s)
    && |r.s.threads| == |r'.s.threads| && r'.contents == r.contents && r'.given == r.given
    && (forall t: nat :: t < |r.s.threads| && t != u ==> r'.s.threads[t] == r.s.threads[t])
    && forall b: nat :: Holds(h, r'.s, u, b) ==> b <= c
  }

  /** A lock that `u` takes makes nobody fated who wants a higher one. */
  lemma {:induction false} FatedSide(h: Hashing, r: Run, r': Run, u: nat, c: nat, w: nat)
    requires SameAboveLock(h, r, r', u, c) && w != u && Fated(h, r', w) && Rank(h, r'.s, w) < h.count - c
    ensures Fated(h, r, w)
    decreases Rank(h, r'.s, w)
  {
    hide Held, Lacks, Locks;
    var th := r'.s.threads[w];
    if th.phase.Locking? {
      var j, x := WhyFated(h, r', w);
      if j < th.phase.next {
        assert Lacks(h, th.op, r.contents, Locks(h, th.op)[j]);
      } else {
        LaterLock(h, th.op, th.phase.next, j);
        FatedSide(h, r, r', u, c, x);
        assert Bars(h, r, w, Locks(h, th.op)[j], x);
      }
    }
  }

  /** A thread that is not fated, and misses nothing in the bucket it takes, is not fated afterwards. */
  lemma StaysFree(h: Hashing, r: Run, u: nat)
    requires Reachable(h, r) && Enabled(h, r.s, u) && r.s.threads[u].phase.Locking? && !Fated(h, r, u)
    requires !Lacks(h, r.s.threads[u].op, r.contents, Wanted(h, r.s.threads[u]))
    ensures !Fated(h, Act(h, r, Advance(u)), u)
  {
    hide Lin, History, LeaksOk, Held, Apply, Act;
    TakesOne(h, r, u);
    var th, r' := r.s.threads[u], Act(h, r, Advance(u));
    if r'.s.threads[u].phase.Body? {
      if th.op.MultiGet? && Apply(th.op, r.contents).answer == Fail {
        MissesHeld(h, r, u);
      }
    } else {
      FreeWhileLocking(h, r, u);
    }
  }

  /** All buckets of the keys are held or wanted: a key that is absent is in one of them. */
  lemma MissesHeld(h: Hashing, r: Run, u: nat)
    requires Sized(h, r.s) && u < |r.s.threads| && r.s.threads[u].phase.Locking? && r.s.threads[u].op.MultiGet?
    requires r.s.threads[u].phase.next + 1 == |Locks(h, r.s.threads[u].op)|
    requires Apply(r.s.threads[u].op, r.contents).answer == Fail
    ensures Fated(h, r, u) || Lacks(h, r.s.threads[u].op, r.contents, Wanted(h, r.s.threads[u]))
  {
    hide Fated, Locks;
    var op, n := r.s.threads[u].op, r.s.threads[u].phase.next;
    var i :| 0 <= i < |op.keys| && op.keys[i] !in r.contents;
    KeysLocked(h, op, op.keys[i]);
    var j :| 0 <= j < |Locks(h, op)| && Locks(h, op)[j] == h.BucketOf(op.keys[i]);
    assert Lacks(h, op, r.contents, Locks(h, op)[j]);
    if j < n {
      LacksIsFate(h, r, u, j);
    }
  }

  lemma FreeWhileLocking(h: Hashing, r: Run, u: nat)
    requires Reachable(h, r) && Enabled(h, r.s, u) && r.s.threads[u].phase.Locking? && !Fated(h, r, u)
    requires !Lacks(h, r.s.threads[u].op, r.contents, Wanted(h, r.s.threads[u]))
    requires Act(h, r, Advance(u)).s.threads[u].phase.Locking?
    ensures !Fated(h, Act(h, r, Advance(u)), u)
  {
    hide Lin, History, LeaksOk, Held, Apply, Act, Lacks, Locks;
    TakesOne(h, r, u);
    ActReachable(h, r, Advance(u));
    var th, r' := r.s.threads[u], Act(h, r, Advance(u));
    var n, ls := th.phase.next, Locks(h, th.op);
    assert r'.s.threads[u] == Thread(th.op, Locking(n + 1));
    if Fated(h, r', u) {
      var j, w := WhyFated(h, r', u);
      if j < n {
        LacksIsFate(h, r, u, j);
      } else if j > n {
        BarredBefore(h, r, u, j, w);
      }
    }
  }

  lemma BarredBefore(h: Hashing, r: Run, u: nat, j: nat, w: nat)
    requires Reachable(h, r) && Enabled(h, r.s, u) && r.s.threads[u].phase.Locking?
    requires Act(h, r, Advance(u)).s.threads[u].phase.Locking?
    requires r.s.threads[u].phase.next < j < |Locks(h, r.s.threads[u].op)|
    requires Bars(h, Act(h, r, Advance(u)), u, Locks(h, r.s.threads[u].op)[j], w)
    ensures Fated(h, r, u)
  {
    hide Lin, History, LeaksOk, Apply, Act, Lacks, Fated, Held;
    var r', op, n := Act(h, r, Advance(u)), r.s.threads[u].op, r.s.threads[u].phase.next;
    var b, c := Locks(h, op)[j], Wanted(h, r.s.threads[u]);
    TakesOne(h, r, u);
    ActReachable(h, r, Advance(u));
    LinLocks(h, r');
    HoldsUpTo(h, r, r', u);
    AllSame(h, r, u);
    HolderRankAbove(h, r'.s, w, b, c);
    FatedSide(h, r, r', u, c, w);
    BarsAt(h, r, u, j, w);
  }

  /** What the thread holds after it took the lock that it wanted. */
  lemma HoldsUpTo(h: Hashing, r: Run, r': Run, u: nat)
    requires Sized(h, r.s) && Sized(h, r'.s) && u < |r.s.threads| && u < |r'.s.threads| && r.s.threads[u].phase.Locking?
    requires r.s.threads[u].phase.next + 1 < |Locks(h, r.s.threads[u].op)|
    requires r'.s.threads[u] == Thread(r.s.threads[u].op, Locking(r.s.threads[u].phase.next + 1))
    ensures forall b: nat :: Holds(h, r'.s, u, b) ==> b <= Wanted(h, r.s.threads[u])
  {
  }

  lemma AllSame(h: Hashing, r: Run, u: nat)
    requires Reachable(h, r) && Enabled(h, r.s, u) && r.s.threads[u].phase.Locking?
    requires Act(h, r, Advance(u)).s.threads[u].phase.Locking?
    ensures var r' := Act(h, r, Advance(u));
            && |r.s.threads| == |r'.s.threads| && r'.contents == r.contents && r'.given == r.given
            && forall t: nat :: t < |r.s.threads| && t != u ==> r'.s.threads[t] == r.s.threads[t]
  {
    hide Lin, History, LeaksOk, Locks;
  }

  lemma HolderRankAbove(h: Hashing, s: State, w: nat, b: nat, c: nat)
    requires LockInv(h, s) && Holds(h, s, w, b) && c < b
    ensures Rank(h, s, w) < h.count - c
  {
    HeldInRange(h, s.threads[w], b);
    assert PhaseOk(h, s.threads[w]);
    if s.threads[w].phase.Locking? {
      WaitsHigher(h, s.threads[w], b);
    }
  }

  /** The operation may be brought to an end: it is not fated, and takes no key away. */
  ghost predicate Free(h: Hashing, r: Run, u: nat)
    requires Sized(h, r.s)
  {
    u < |r.s.threads| && !Fated(h, r, u) && (r.s.threads[u].phase.Locking? ==> Adds(r.s.threads[u].op))
  }

  /** Those in the way of `u` at lock `b` are brought to an end. */
  lemma {:induction false} ClearBucket(h: Hashing, r: Run, u: nat) returns (more: seq<Event>)
    requires Reachable(h, r) && Free(h, r, u) && r.s.threads[u].phase.Locking?
    requires r.s.threads[u].phase.next < |Locks(h, r.s.threads[u].op)|
    ensures var r' := Continue(h, r, more);
            && Eases(h, r, r')
            && (Returned(r', u) || (Same(r, r', u) && Unobstructed(h, r', u, Wanted(h, r.s.threads[u]))))
    decreases Rank(h, r.s, u), 0, |HolderSet(h, r.s, Wanted(h, r.s.threads[u]))|
  {
    hide Lin, History, LeaksOk, Act, Eases, Obstructs, Softens, Fated, Locks, Held, HolderSet, Rank, Grows, Continue;
    var b := Wanted(h, r.s.threads[u]);
    if w: nat :| Obstructs(h, r, u, b, w) {
      NotBarred(h, r, u, w);
      ObstacleFree(h, r, u, b, w);
      var a := Clear(h, r, w);
      var r1 := Continue(h, r, a);
      EasesSoftens(h, r, r1);
      EasesParts(h, r, r1, u);
      if Returned(r1, u) {
        more := a;
      } else {
        FewerHolders(h, r, r1, b, w);
        SameRank(h, r, r1, u);
        StillFree(h, r, r1, u);
        var rest := ClearBucket(h, r1, u);
        more := a + rest;
        ContinueMore(h, r, a, rest);
        EasesTrans(h, r, r1, Continue(h, r1, rest));
      }
    } else {
      more := [];
      ContinueNone(h, r);
      EasesNow(h, r);
    }
  }

  lemma StillFree(h: Hashing, r: Run, r': Run, u: nat)
    requires Reachable(h, r) && Softens(h, r, r') && Same(r, r', u) && Free(h, r, u)
    ensures Free(h, r', u)
  {
    hide Fated, Lin, History, LeaksOk;
    if Fated(h, r', u) {
      FatedBefore(h, r, r', u);
    }
  }

  lemma ObstacleFree(h: Hashing, r: Run, u: nat, b: nat, w: nat)
    requires Reachable(h, r) && u < |r.s.threads| && Obstructs(h, r, u, b, w) && !Fated(h, r, w)
    ensures Free(h, r, w) && Holds(h, r.s, w, b)
  {
    hide Fated, Lin, History, LeaksOk, Held;
    LinLocks(h, r);
    assert PhaseOk(h, r.s.threads[w]);
    HolderAdds(h, r.s, w, b);
  }

  /** A free operation is brought to an end, with all those in its way. */
  lemma {:induction false} Clear(h: Hashing, r: Run, u: nat) returns (more: seq<Event>)
    requires Reachable(h, r) && Free(h, r, u)
    ensures var r' := Continue(h, r, more); Eases(h, r, r') && Returned(r', u)
    decreases Rank(h, r.s, u), 1, 0
  {
    hide Lin, History, LeaksOk, Act, Eases, Obstructs, Softens, Fated, Locks, Held, Rank, Grows, Continue, OnlyMoves,
         Unobstructed, Lacks;
    if !r.s.threads[u].phase.Locking? {
      more := RunOut(h, r, u);
    } else {
      WantsOne(h, r, u);
      var b := Wanted(h, r.s.threads[u]);
      var m1 := ClearBucket(h, r, u);
      var r1 := Continue(h, r, m1);
      if Returned(r1, u) {
        more := m1;
      } else {
        EasesParts(h, r, r1, u);
        var m2 := FillKeys(h, r1, u, b);
        var r2 := Continue(h, r1, m2);
        ContinueMore(h, r, m1, m2);
        EasesTrans(h, r, r1, r2);
        if Returned(r2, u) {
          more := m1 + m2;
        } else {
          EasesParts(h, r, r2, u);
          EasesSoftens(h, r, r2);
          StillFree(h, r, r2, u);
          SameRank(h, r, r2, u);
          var m3 := TakeOn(h, r2, u);
          more := m1 + m2 + m3;
          ContinueMore(h, r, m1 + m2, m3);
          EasesTrans(h, r, r2, Continue(h, r2, m3));
        }
      }
    }
  }

  lemma WantsOne(h: Hashing, r: Run, u: nat)
    requires Reachable(h, r) && u < |r.s.threads| && r.s.threads[u].phase.Locking?
    ensures r.s.threads[u].phase.next < |Locks(h, r.s.threads[u].op)| && Wanted(h, r.s.threads[u]) < h.count
  {
    LinLocks(h, r);
    assert PhaseOk(h, r.s.threads[u]);
  }

  /** With nothing in the way and nothing to miss, `u` takes the lock that it wants, and goes on to its end. */
  lemma {:induction false} TakeOn(h: Hashing, r: Run, u: nat) returns (more: seq<Event>)
    requires Reachable(h, r) && Free(h, r, u) && r.s.threads[u].phase.Locking?
    requires r.s.threads[u].phase.next < |Locks(h, r.s.threads[u].op)|
    requires Unobstructed(h, r, u, Wanted(h, r.s.threads[u]))
    requires !Lacks(h, r.s.threads[u].op, r.contents, Wanted(h, r.s.threads[u]))
    ensures var r' := Continue(h, r, more); Eases(h, r, r') && Returned(r', u)
    decreases Rank(h, r.s, u), 0, 0
  {
    hide Lin, History, LeaksOk, Act, Eases, Softens, Fated, Locks, Held, Rank, Grows, Continue, OnlyMoves, Unobstructed,
         Lacks;
    CanMove(h, r, u);
    var r1 := Act(h, r, Advance(u));
    TakesOne(h, r, u);
    ActReachable(h, r, Advance(u));
    MovesAlone(h, r, u);
    StaysFree(h, r, u);
    LowerRank(h, r, r1, u);
    var rest := Clear(h, r1, u);
    more := [Advance(u)] + rest;
    ContinueFirst(h, r, Advance(u), rest);
    EasesAround(h, r, r1, Continue(h, r1, rest), u);
  }

  lemma LowerRank(h: Hashing, r: Run, r': Run, u: nat)
    requires h.Ok() && u < |r.s.threads| && u < |r'.s.threads| && r.s.threads[u].phase.Locking?
    requires r.s.threads[u].phase.next < |Locks(h, r.s.threads[u].op)|
    requires r'.s.threads[u]
               == Thread(r.s.threads[u].op, AfterLock(Locks(h, r.s.threads[u].op), r.s.threads[u].phase.next + 1))
    ensures Rank(h, r'.s, u) < Rank(h, r.s, u)
  {
  }

  // ---------------------------------------------------------------------------------------
  // A put, in any state

  /** A put to a bucket that a fated operation holds never gets its lock. */
  lemma {:induction false} PutStarves(h: Hashing, r: Run, u: nat, t: nat, k: Key, v: Value, more: seq<Event>)
    requires Reachable(h, r) && Fated(h, r, u) && Holds(h, r.s, u, h.BucketOf(k))
    requires t < |r.s.threads| && r.s.threads[t] == Thread(Put(k, v), Locking(0))
    ensures var r' := Continue(h, r, more); t < |r'.s.threads| && r'.s.threads[t] == Thread(Put(k, v), Locking(0))
  {
    hide Lin, History, LeaksOk, Act, Fated, Held, Holds;
    if more != [] {
      var front := more[..|more| - 1];
      PutStarves(h, r, u, t, k, v, front);
      var r1 := Continue(h, r, front);
      FatedForEver(h, r, front, u);
      LinLocks(h, r1);
      ActThread(h, r1, more[|more| - 1], t);
      if Enabled(h, r1.s, t) {
        NotTaken(h, r1.s, t, u);
      }
    }
  }

  /** In every state of every run, exactly when a `Put` that begins can return: if and only if no operation that holds
      the lock of its bucket is fated. */
  lemma PutReturnsIff(h: Hashing, events: seq<Event>, k: Key, v: Value)
    requires h.Ok()
    ensures var r := RunOf(h, events);
            (exists more: seq<Event> :: Returns(h, Act(h, r, Begin(Put(k, v))), more, |r.s.threads|))
            <==> forall u: nat :: Holds(h, r.s, u, h.BucketOf(k)) ==> !Fated(h, r, u)
  {
    hide Lin, History, LeaksOk, Act, Fated, Held, Holds, Continue, Softens, Eases;
    var r := RunOf(h, events);
    var r', t := Act(h, r, Begin(Put(k, v))), |r.s.threads|;
    RunReachable(h, events);
    BeginsAlone(h, r, k, v);
    if u: nat :| Holds(h, r.s, u, h.BucketOf(k)) && Fated(h, r, u) {
      FatedAct(h, r, Begin(Put(k, v)), u);
      forall more: seq<Event>
        ensures !Returns(h, r', more, t)
      {
        PutStarves(h, r', u, t, k, v, more);
      }
    } else {
      PutIsFree(h, r, r', t, k, v);
      var more := Clear(h, r', t);
      assert Returns(h, r', more, t);
    }
  }

  lemma PutIsFree(h: Hashing, r: Run, r': Run, t: nat, k: Key, v: Value)
    requires Reachable(h, r) && Reachable(h, r') && Softens(h, r, r')
    requires t < |r'.s.threads| && r'.s.threads[t] == Thread(Put(k, v), Locking(0))
               && Locks(h, Put(k, v)) == [h.BucketOf(k)]
    requires forall u: nat :: Holds(h, r.s, u, h.BucketOf(k)) ==> !Fated(h, r, u)
    ensures Free(h, r', t)
  {
    hide Lin, History, LeaksOk, Held;
    if Fated(h, r', t) {
      var j, w := WhyFated(h, r', t);
      assert Holds(h, r'.s, w, h.BucketOf(k)) && Same(r, r', w);
      assert Holds(h, r.s, w, h.BucketOf(k));
      FatedBefore(h, r, r', w);
    }
  }
}
