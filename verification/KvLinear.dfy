/** Every run of the concurrent store is a run of the simple one.

The order is that in which the operations took their last lock. `Lin` is the invariant: an
operation in its body will, if left alone, give the answer of the simple store and leave its keys as
the simple store has them; and a key that no writer is working on is as the simple store has it.
 */
module KvLinear {
  import opened SimpleKv
  import opened DbMaps
  import opened KvThreads
  import opened KvLocks

  /** What the buckets contain at the given keys. */
  ghost function Snapshot(h: Hashing, buckets: seq<Bucket>, keys: set<Key>): Contents
    requires h.Ok() && |buckets| == h.count
  {
    map k | k in keys && Find(h, buckets, k).Some? :: Find(h, buckets, k).value
  }

  /** Some thread may be changing key `k`. */
  ghost predicate InWork(s: State, k: Key) {
    exists t :: 0 <= t < |s.threads| && Changing(s.threads[t], k)
  }

  predicate Changing(th: Thread, k: Key) {
    th.phase.Body? && Writes(th.op) && k in Keys(th.op)
  }

  ghost predicate LinAt(h: Hashing, r: Run, t: nat)
    requires Sized(h, r.s) && t < |r.s.threads|
  {
    var th := r.s.threads[t];
    match th.phase
    case Locking(_) => true
    case Body(i, acc) =>
      && t in r.given
      && Rest(th.op, i, acc, Snapshot(h, r.s.buckets, Keys(th.op)))
          == Outcome(r.given[t], Restrict(r.contents, Keys(th.op)))
    case Unlocking(_, a) => t in r.given && r.given[t] == a
    case Finished(a, _) => t in r.given && r.given[t] == a
  }

  ghost predicate KeyOk(h: Hashing, r: Run, k: Key)
    requires Sized(h, r.s)
  {
    InWork(r.s, k) || Find(h, r.s.buckets, k) == At(r.contents, k)
  }

  ghost predicate Lin(h: Hashing, r: Run) {
    && LockInv(h, r.s)
    && (forall t: nat :: t < |r.s.threads| ==> LinAt(h, r, t))
    && forall k: Key :: KeyOk(h, r, k)
  }

  // ---------------------------------------------------------------------------------------
  // Accesses

  lemma FindStore(h: Hashing, buckets: seq<Bucket>, k: Key, v: Value, k': Key)
    requires h.Ok() && |buckets| == h.count
    ensures Find(h, Store(h, buckets, k, v), k') == if k' == k then Some(v) else Find(h, buckets, k')
  {
    LookupInsert(buckets[h.BucketOf(k)], k, v, k');
  }

  lemma FindErase(h: Hashing, buckets: seq<Bucket>, k: Key, k': Key)
    requires h.Ok() && |buckets| == h.count
    ensures Find(h, Erase(h, buckets, k), k') == if k' == k then None else Find(h, buckets, k')
    ensures |Erase(h, buckets, k)[h.BucketOf(k)]| < |buckets[h.BucketOf(k)]| <==> Find(h, buckets, k).Some?
  {
    LookupRemove(buckets[h.BucketOf(k)], k, k');
    RemoveShrinks(buckets[h.BucketOf(k)], k);
  }

  lemma SnapshotStore(h: Hashing, buckets: seq<Bucket>, k: Key, v: Value, keys: set<Key>)
    requires h.Ok() && |buckets| == h.count && k in keys
    ensures Snapshot(h, Store(h, buckets, k, v), keys) == Snapshot(h, buckets, keys)[k := v]
  {
    forall k' | k' in keys
      ensures Find(h, Store(h, buckets, k, v), k') == if k' == k then Some(v) else Find(h, buckets, k')
    {
      FindStore(h, buckets, k, v, k');
    }
  }

  lemma SnapshotErase(h: Hashing, buckets: seq<Bucket>, k: Key, keys: set<Key>)
    requires h.Ok() && |buckets| == h.count && k in keys
    ensures Snapshot(h, Erase(h, buckets, k), keys) == Snapshot(h, buckets, keys) - {k}
  {
    forall k' | k' in keys
      ensures Find(h, Erase(h, buckets, k), k') == if k' == k then None else Find(h, buckets, k')
    {
      FindErase(h, buckets, k, k');
    }
  }

  /** One access does one step of the body that `Rest` describes. */
  lemma StepIsRest(h: Hashing, op: Op, i: nat, acc: seq<Value>, buckets: seq<Bucket>)
    requires h.Ok() && |buckets| == h.count
    ensures var a := BodyStep(h, op, i, acc, buckets);
            var o, m' := Rest(op, i, acc, Snapshot(h, buckets, Keys(op))), Snapshot(h, a.buckets, Keys(op));
            match a.phase
            case Body(j, acc') => o == Rest(op, j, acc', m')
            case Unlocking(_, answer) => o == Outcome(answer, m')
            case Finished(answer, _) => o == Outcome(answer, m')
            case Locking(_) => false
  {
    match op
    case Get(k) =>
    case Put(k, v) => SnapshotStore(h, buckets, k, v, Keys(op));
    case Append(k, v) =>
      if i > 0 {
        SnapshotStore(h, buckets, k, if acc == [] then v else acc[0] + v, Keys(op));
      }
    case Delete(k) =>
      if i > 0 {
        FindErase(h, buckets, k, k);
        SnapshotErase(h, buckets, k, Keys(op));
        assert Find(h, buckets, k).None? ==> Snapshot(h, buckets, Keys(op)) - {k} == Snapshot(h, buckets, Keys(op));
      }
    case MultiGet(ks) =>
      if i < |ks| {
        assert ks[i] in Keys(op);
      }
    case MultiPut(ks, vs) =>
      if |ks| == |vs| && i < |ks| {
        assert ks[i] in Keys(op);
        SnapshotStore(h, buckets, ks[i], vs[i], Keys(op));
      }
  }

  /** An access changes nothing but the keys of a writing operation. */
  lemma StepFrame(h: Hashing, op: Op, i: nat, acc: seq<Value>, buckets: seq<Bucket>, k: Key)
    requires h.Ok() && |buckets| == h.count && (k !in Keys(op) || !Writes(op))
    ensures Find(h, BodyStep(h, op, i, acc, buckets).buckets, k) == Find(h, buckets, k)
  {
    match op
    case Put(k', v) => FindStore(h, buckets, k', v, k);
    case Append(k', v) =>
      if i > 0 {
        FindStore(h, buckets, k', if acc == [] then v else acc[0] + v, k);
      }
    case Delete(k') => FindErase(h, buckets, k', k);
    case MultiPut(ks, vs) =>
      if |ks| == |vs| && i < |ks| {
        assert ks[i] in Keys(op);
        FindStore(h, buckets, ks[i], vs[i], k);
      }
    case _ =>
  }

  // ---------------------------------------------------------------------------------------
  // Other threads are not disturbed

  /** A thread that did not move, and whose keys did not change, is as before. */
  lemma Undisturbed(h: Hashing, r: Run, r': Run, u: nat)
    requires Sized(h, r.s) && Sized(h, r'.s) && u < |r.s.threads| && u < |r'.s.threads|
               && r'.s.threads[u] == r.s.threads[u]
    requires LinAt(h, r, u) && (u in r.given ==> u in r'.given && r'.given[u] == r.given[u])
    requires r.s.threads[u].phase.Body? ==>
               forall k :: k in Keys(r.s.threads[u].op) ==>
                 Find(h, r'.s.buckets, k) == Find(h, r.s.buckets, k) && At(r'.contents, k) == At(r.contents, k)
    ensures LinAt(h, r', u)
  {
    var keys := Keys(r.s.threads[u].op);
    if r.s.threads[u].phase.Body? {
      assert Snapshot(h, r'.s.buckets, keys) == Snapshot(h, r.s.buckets, keys);
      SameRestriction(r.contents, r'.contents, keys);
    }
  }

  lemma SameRestriction(m: Contents, m': Contents, keys: set<Key>)
    requires forall k :: k in keys ==> At(m', k) == At(m, k)
    ensures Restrict(m', keys) == Restrict(m, keys)
  {
    assert forall k :: k in keys ==> (k in m' <==> k in m) && (k in m ==> m'[k] == m[k]);
  }

  /** Of two threads in their bodies that share a key, both read. */
  lemma BodiesShare(h: Hashing, s: State, t: nat, u: nat, k: Key)
    requires LockInv(h, s) && t != u && t < |s.threads| && u < |s.threads| && s.threads[t].phase.Body?
               && s.threads[u].phase.Body?
    requires k in Keys(s.threads[t].op) && k in Keys(s.threads[u].op)
    ensures !Writes(s.threads[t].op) && !Writes(s.threads[u].op)
  {
    KeysLocked(h, s.threads[t].op, k);
    KeysLocked(h, s.threads[u].op, k);
    Exclusion(h, s, t, u, h.BucketOf(k));
  }

  // ---------------------------------------------------------------------------------------
  // Taking the last lock

  /** Thread `t` enters its body, and nothing else changes. */
  ghost predicate Enters(h: Hashing, s: State, s': State, t: nat) {
    && LockInv(h, s) && LockInv(h, s') && s'.buckets == s.buckets
    && t <= |s.threads| && |s'.threads| == (if t < |s.threads| then |s.threads| else |s.threads| + 1)
    && s'.threads[t].phase == Body(0, []) && (t < |s.threads| ==> s.threads[t].phase.Locking?)
    && forall u :: 0 <= u < |s.threads| && u != t ==> s'.threads[u] == s.threads[u]
  }

  /** The keys of the thread that enters are nobody's work. */
  lemma EnteredAlone(h: Hashing, s: State, s': State, t: nat, k: Key)
    requires Enters(h, s, s', t) && k in Keys(s'.threads[t].op)
    ensures !InWork(s, k)
  {
    if u :| 0 <= u < |s.threads| && Changing(s.threads[u], k) {
      BodiesShare(h, s', t, u, k);
    }
  }

  lemma EntererIsLin(h: Hashing, r: Run, s': State, t: nat)
    requires Lin(h, r) && Enters(h, r.s, s', t)
    ensures LinAt(h, Logged(r, s', t), t)
  {
    var op := s'.threads[t].op;
    var keys := Keys(op);
    forall k | k in keys
      ensures Find(h, s'.buckets, k) == At(r.contents, k)
    {
      EnteredAlone(h, r.s, s', t, k);
      assert KeyOk(h, r, k);
    }
    assert Snapshot(h, s'.buckets, keys) == Restrict(r.contents, keys);
    RestIsApply(op, Restrict(r.contents, keys));
    ApplyLocal(op, r.contents, keys);
  }

  lemma EnterKeepsOthers(h: Hashing, r: Run, s': State, t: nat, u: nat)
    requires Lin(h, r) && Enters(h, r.s, s', t) && u < |r.s.threads| && u != t
    ensures LinAt(h, Logged(r, s', t), u)
  {
    var r' := Logged(r, s', t);
    assert LinAt(h, r, u);
    if r.s.threads[u].phase.Body? {
      forall k | k in Keys(r.s.threads[u].op)
        ensures At(r'.contents, k) == At(r.contents, k)
      {
        if k in Keys(s'.threads[t].op) {
          BodiesShare(h, s', t, u, k);
        }
        ApplyFrame(s'.threads[t].op, r.contents, k);
      }
    }
    Undisturbed(h, r, r', u);
  }

  lemma EnterKeepsKeys(h: Hashing, r: Run, s': State, t: nat, k: Key)
    requires Lin(h, r) && Enters(h, r.s, s', t)
    ensures KeyOk(h, Logged(r, s', t), k)
  {
    var op := s'.threads[t].op;
    if k in Keys(op) && Writes(op) {
      assert Changing(s'.threads[t], k);
    } else {
      ApplyFrame(op, r.contents, k);
      assert KeyOk(h, r, k);
      if u :| 0 <= u < |r.s.threads| && Changing(r.s.threads[u], k) {
        assert Changing(s'.threads[u], k);
      }
    }
  }

  lemma EnterKeepsLin(h: Hashing, r: Run, s': State, t: nat)
    requires Lin(h, r) && Enters(h, r.s, s', t)
    ensures Lin(h, Logged(r, s', t))
  {
    var r' := Logged(r, s', t);
    forall u: nat | u < |r'.s.threads|
      ensures LinAt(h, r', u)
    {
      if u == t {
        EntererIsLin(h, r, s', t);
      } else {
        EnterKeepsOthers(h, r, s', t, u);
      }
    }
    forall k: Key
      ensures KeyOk(h, r', k)
    {
      EnterKeepsKeys(h, r, s', t, k);
    }
  }

  // ---------------------------------------------------------------------------------------
  // Body steps

  ghost predicate Accesses(h: Hashing, s: State, s': State, t: nat) {
    && LockInv(h, s) && LockInv(h, s') && t < |s.threads| == |s'.threads| && s.threads[t].phase.Body?
    && var th := s.threads[t];
       var a := BodyStep(h, th.op, th.phase.i, th.phase.acc, s.buckets);
       s'.buckets == a.buckets && s'.threads == s.threads[t := Thread(th.op, a.phase)]
  }

  lemma AccessIsLin(h: Hashing, r: Run, s': State, t: nat)
    requires Lin(h, r) && Accesses(h, r.s, s', t)
    ensures LinAt(h, r.(s := s'), t)
    ensures !s'.threads[t].phase.Body? ==>
              Snapshot(h, s'.buckets, Keys(s'.threads[t].op))
              == Restrict(r.contents, Keys(s'.threads[t].op))
  {
    var th := r.s.threads[t];
    assert LinAt(h, r, t);
    StepIsRest(h, th.op, th.phase.i, th.phase.acc, r.s.buckets);
  }

  lemma AccessKeepsOthers(h: Hashing, r: Run, s': State, t: nat, u: nat)
    requires Lin(h, r) && Accesses(h, r.s, s', t) && u < |r.s.threads| && u != t
    ensures LinAt(h, r.(s := s'), u)
  {
    var th := r.s.threads[t];
    assert LinAt(h, r, u);
    if r.s.threads[u].phase.Body? {
      forall k | k in Keys(r.s.threads[u].op)
        ensures Find(h, s'.buckets, k) == Find(h, r.s.buckets, k)
      {
        if k in Keys(th.op) {
          BodiesShare(h, r.s, t, u, k);
        }
        StepFrame(h, th.op, th.phase.i, th.phase.acc, r.s.buckets, k);
      }
    }
    Undisturbed(h, r, r.(s := s'), u);
  }

  lemma SnapshotGives(h: Hashing, buckets: seq<Bucket>, m: Contents, keys: set<Key>, k: Key)
    requires h.Ok() && |buckets| == h.count && Snapshot(h, buckets, keys) == Restrict(m, keys) && k in keys
    ensures Find(h, buckets, k) == At(m, k)
  {
    assert At(Snapshot(h, buckets, keys), k) == Find(h, buckets, k);
    assert At(Restrict(m, keys), k) == At(m, k);
  }

  lemma AccessKeepsKeys(h: Hashing, r: Run, s': State, t: nat, k: Key)
    requires Lin(h, r) && Accesses(h, r.s, s', t)
    ensures KeyOk(h, r.(s := s'), k)
  {
    var th := r.s.threads[t];
    if k in Keys(th.op) && Writes(th.op) {
      if s'.threads[t].phase.Body? {
        assert Changing(s'.threads[t], k);
      } else {
        AccessIsLin(h, r, s', t);
        SnapshotGives(h, s'.buckets, r.contents, Keys(th.op), k);
      }
    } else {
      StepFrame(h, th.op, th.phase.i, th.phase.acc, r.s.buckets, k);
      assert KeyOk(h, r, k);
      if u :| 0 <= u < |r.s.threads| && Changing(r.s.threads[u], k) {
        assert Changing(s'.threads[u], k);
      }
    }
  }

  lemma AccessKeepsLin(h: Hashing, r: Run, s': State, t: nat)
    requires Lin(h, r) && Accesses(h, r.s, s', t)
    ensures Lin(h, r.(s := s'))
  {
    var r' := r.(s := s');
    forall u: nat | u < |r'.s.threads|
      ensures LinAt(h, r', u)
    {
      if u == t {
        AccessIsLin(h, r, s', t);
      } else {
        AccessKeepsOthers(h, r, s', t, u);
      }
    }
    forall k: Key
      ensures KeyOk(h, r', k)
    {
      AccessKeepsKeys(h, r, s', t, k);
    }
  }

  // ---------------------------------------------------------------------------------------
  // Locking, unlocking, and new threads that wait

  /** Threads move outside their bodies, and answers stay. */
  ghost predicate Quiet(h: Hashing, s: State, s': State) {
    && LockInv(h, s) && LockInv(h, s') && s'.buckets == s.buckets && |s.threads| <= |s'.threads|
    && forall u :: 0 <= u < |s'.threads| ==>
         || s'.threads[u].phase.Locking?
         || (u < |s.threads| && s'.threads[u] == s.threads[u])
         || (u < |s.threads| && s.threads[u].phase.Unlocking?
             && (s'.threads[u].phase.Unlocking? || s'.threads[u].phase.Finished?)
             && s'.threads[u].phase.answer == s.threads[u].phase.answer)
  }

  lemma QuietKeepsLin(h: Hashing, r: Run, s': State)
    requires Lin(h, r) && Quiet(h, r.s, s') && forall u :: 0 <= u < |r.s.threads| && r.s.threads[u].phase.Body? ==>
               s'.threads[u] == r.s.threads[u]
    ensures Lin(h, r.(s := s'))
  {
    var r' := r.(s := s');
    forall u: nat | u < |s'.threads|
      ensures LinAt(h, r', u)
    {
      if u < |r.s.threads| {
        assert LinAt(h, r, u);
      }
    }
    forall k: Key
      ensures KeyOk(h, r', k)
    {
      assert KeyOk(h, r, k);
      if u :| 0 <= u < |r.s.threads| && Changing(r.s.threads[u], k) {
        assert Changing(s'.threads[u], k);
      }
    }
  }

  lemma AdvanceKeepsLin(h: Hashing, r: Run, t: nat)
    requires Lin(h, r) && Enabled(h, r.s, t)
    ensures Lin(h, Act(h, r, Advance(t)))
  {
    var s' := Next(h, r.s, t);
    NextKeepsLocks(h, r.s, t);
    match r.s.threads[t].phase
    case Body(i, acc) =>
      assert Accesses(h, r.s, s', t);
      AccessKeepsLin(h, r, s', t);
    case Locking(n) =>
      if s'.threads[t].phase.Locking? {
        QuietKeepsLin(h, r, s');
      } else {
        assert Enters(h, r.s, s', t);
        EnterKeepsLin(h, r, s', t);
      }
    case Unlocking(n, a) =>
      QuietKeepsLin(h, r, s');
  }

  lemma BeginKeepsLin(h: Hashing, r: Run, op: Op)
    requires Lin(h, r)
    ensures Lin(h, Act(h, r, Begin(op)))
  {
    var s', n := Started(h, r.s, op), |r.s.threads|;
    StartKeepsLocks(h, r.s, op);
    if Locks(h, op) == [] {
      assert Enters(h, r.s, s', n);
      EnterKeepsLin(h, r, s', n);
    } else {
      QuietKeepsLin(h, r, s');
    }
  }

  lemma {:induction false} ContinueKeepsLin(h: Hashing, r: Run, events: seq<Event>)
    requires Lin(h, r)
    ensures Lin(h, Continue(h, r, events))
  {
    if events != [] {
      var r', e := Continue(h, r, events[..|events| - 1]), events[|events| - 1];
      ContinueKeepsLin(h, r, events[..|events| - 1]);
      match e
      case Begin(op) => BeginKeepsLin(h, r', op);
      case Advance(t) =>
        if Enabled(h, r'.s, t) {
          AdvanceKeepsLin(h, r', t);
        }
    }
  }

  // ---------------------------------------------------------------------------------------
  // The order, and the theorem

  function OpsOf(s: State, log: seq<nat>): seq<Op>
    requires forall i :: 0 <= i < |log| ==> log[i] < |s.threads|
  {
    seq(|log|, i requires 0 <= i < |log| => s.threads[log[i]].op)
  }

  /** The log lists, once each, the threads that have all their locks. */
  ghost predicate Listed(r: Run) {
    && (forall i :: 0 <= i < |r.log| ==> r.log[i] < |r.s.threads| && r.log[i] in r.given)
    && (forall i, j :: 0 <= i < j < |r.log| ==> r.log[i] != r.log[j])
    && (forall t: nat :: t in r.given <==> t < |r.s.threads| && !r.s.threads[t].phase.Locking?)
    && (forall t: nat :: t in r.given ==> t in r.log)
  }

  /** What the run keeps as given answers and contents is what the simple store makes of the operations in this order.
      */
  ghost predicate Sequential(r: Run)
    requires Listed(r)
  {
    var (answers, m) := ApplyAll(OpsOf(r.s, r.log));
    r.contents == m && forall i :: 0 <= i < |r.log| ==> r.given[r.log[i]] == answers[i]
  }

  ghost predicate History(r: Run) {
    Listed(r) && Sequential(r)
  }

  lemma HistorySame(r: Run, s': State)
    requires History(r) && |r.s.threads| <= |s'.threads|
    requires forall u :: 0 <= u < |r.s.threads| ==> s'.threads[u].op == r.s.threads[u].op
                                                    && (s'.threads[u].phase.Locking? <==> r.s.threads[u].phase.Locking?)
    requires forall u :: |r.s.threads| <= u < |s'.threads| ==> s'.threads[u].phase.Locking?
    ensures History(r.(s := s'))
  {
    assert OpsOf(s', r.log) == OpsOf(r.s, r.log);
  }

  /** Thread `t`, which waited or is new, is logged. */
  ghost predicate Logs(r: Run, s': State, t: nat) {
    && t <= |r.s.threads| && |s'.threads| == (if t < |r.s.threads| then |r.s.threads| else |r.s.threads| + 1)
    && (t < |r.s.threads| ==> r.s.threads[t].phase.Locking?)
    && !s'.threads[t].phase.Locking?
    && forall u :: 0 <= u < |r.s.threads| ==>
        s'.threads[u].op == r.s.threads[u].op
        && (u != t ==> s'.threads[u] == r.s.threads[u])
  }

  lemma ListedLogged(r: Run, s': State, t: nat)
    requires Listed(r) && Logs(r, s', t)
    ensures t !in r.given && Listed(Logged(r, s', t))
  {
    var r' := Logged(r, s', t);
    assert t !in r.given;
    assert r'.log[|r.log|] == t;
    forall x: nat | x in r'.given
      ensures x in r'.log
    {
      if x != t {
        assert x in r.log;
      }
    }
  }

  lemma ApplyMore(ops: seq<Op>, op: Op)
    ensures var (answers, m) := ApplyAll(ops);
            ApplyAll(ops + [op]) == (answers + [Apply(op, m).answer], Apply(op, m).contents)
  {
    hide Apply;
    assert (ops + [op])[..|ops|] == ops;
  }

  lemma OpsMore(r: Run, s': State, t: nat)
    requires Listed(r) && Logs(r, s', t) && Listed(Logged(r, s', t))
    ensures OpsOf(s', r.log + [t]) == OpsOf(r.s, r.log) + [s'.threads[t].op]
  {
  }

  lemma HistoryLogged(r: Run, s': State, t: nat)
    requires History(r) && Logs(r, s', t)
    ensures History(Logged(r, s', t))
  {
    ListedLogged(r, s', t);
    OpsMore(r, s', t);
    ApplyMore(OpsOf(r.s, r.log), s'.threads[t].op);
    hide Apply, ApplyAll, OpsOf, Logs;
  }

  lemma {:induction false} ContinueKeepsHistory(h: Hashing, r: Run, events: seq<Event>)
    requires Sized(h, r.s) && History(r)
    ensures History(Continue(h, r, events))
    ensures r.log <= Continue(h, r, events).log
  {
    if events != [] {
      ContinueKeepsHistory(h, r, events[..|events| - 1]);
      ActKeepsHistory(h, Continue(h, r, events[..|events| - 1]), events[|events| - 1]);
    }
  }

  lemma ActKeepsHistory(h: Hashing, r: Run, e: Event)
    requires Sized(h, r.s) && History(r)
    ensures History(Act(h, r, e)) && r.log <= Act(h, r, e).log
  {
    hide History;
    match e
    case Begin(op) => BeginKeepsHistory(h, r, op);
    case Advance(t) =>
      if Enabled(h, r.s, t) {
        AdvanceKeepsHistory(h, r, t);
      }
  }

  lemma BeginKeepsHistory(h: Hashing, r: Run, op: Op)
    requires Sized(h, r.s) && History(r)
    ensures History(Act(h, r, Begin(op))) && r.log <= Act(h, r, Begin(op)).log
  {
    hide History, Locks;
    var s' := Started(h, r.s, op);
    if Locks(h, op) == [] {
      HistoryLogged(r, s', |r.s.threads|);
    } else {
      HistorySame(r, s');
    }
  }

  lemma AdvanceKeepsHistory(h: Hashing, r: Run, t: nat)
    requires Sized(h, r.s) && History(r) && Enabled(h, r.s, t)
    ensures History(Act(h, r, Advance(t))) && r.log <= Act(h, r, Advance(t)).log
  {
    hide History;
    var s' := Next(h, r.s, t);
    if r.s.threads[t].phase.Locking? && !s'.threads[t].phase.Locking? {
      HistoryLogged(r, s', t);
    } else {
      HistorySame(r, s');
    }
  }

  lemma InitialIsLin(h: Hashing)
    requires h.Ok()
    ensures Lin(h, Initial(h)) && History(Initial(h))
  {
    assert OpsOf(Initial(h).s, []) == [];
  }

  /** The place of a thread in the order. */
  lemma LoggedOnce(r: Run, t: nat) returns (i: nat)
    requires History(r) && t in r.given
    ensures i < |r.log| && r.log[i] == t
  {
    i :| 0 <= i < |r.log| && r.log[i] == t;
  }

  /** Every interleaving is linearizable, in the order in which operations took their last lock: each operation that
      returned gave the answer that the simple store gives it in that order. */
  lemma AnswersAreSequential(h: Hashing, events: seq<Event>, t: nat) returns (i: nat)
    requires h.Ok() && t < |RunOf(h, events).s.threads| && RunOf(h, events).s.threads[t].phase.Finished?
    ensures var r := RunOf(h, events);
            && History(r) && i < |r.log| && r.log[i] == t
            && r.s.threads[t].phase.answer == ApplyAll(OpsOf(r.s, r.log)).0[i]
  {
    var r := RunOf(h, events);
    InitialIsLin(h);
    ContinueKeepsLin(h, Initial(h), events);
    ContinueKeepsHistory(h, Initial(h), events);
    assert LinAt(h, r, t);
    i := LoggedOnce(r, t);
  }

  /** When no operation is in its body, the buckets contain what the simple store contains. */
  lemma ContentsAreSequential(h: Hashing, events: seq<Event>, k: Key)
    requires h.Ok() && forall t :: 0 <= t < |RunOf(h, events).s.threads| ==> !RunOf(h, events).s.threads[t].phase.Body?
    ensures var r := RunOf(h, events);
            History(r) && Find(h, r.s.buckets, k) == At(ApplyAll(OpsOf(r.s, r.log)).1, k)
  {
    var r := RunOf(h, events);
    InitialIsLin(h);
    ContinueKeepsLin(h, Initial(h), events);
    ContinueKeepsHistory(h, Initial(h), events);
    assert KeyOk(h, r, k);
  }

  lemma LaterInLog(r: Run, r': Run, t: nat, u: nat)
    requires History(r) && History(r') && r.log <= r'.log && t in r.given && u in r'.given && |r.s.threads| <= u
    ensures exists i, j :: 0 <= i < j < |r'.log| && r'.log[i] == t && r'.log[j] == u
  {
    hide Sequential;
    var i := LoggedOnce(r, t);
    var j := LoggedOnce(r', u);
    assert r'.log[i] == t;
    assert forall k :: 0 <= k < |r.log| ==> r'.log[k] == r.log[k];
  }

  /** The order respects time: an operation that returned before another began comes first. */
  lemma OrderIsRealTime(h: Hashing, events: seq<Event>, more: seq<Event>, t: nat, u: nat)
    requires h.Ok()
    requires var r, r' := RunOf(h, events), Continue(h, RunOf(h, events), more);
             && t < |r.s.threads| && r.s.threads[t].phase.Finished?
             && |r.s.threads| <= u < |r'.s.threads| && r'.s.threads[u].phase.Finished?
    ensures var r' := Continue(h, RunOf(h, events), more);
            exists i, j :: 0 <= i < j < |r'.log| && r'.log[i] == t && r'.log[j] == u
  {
    var r, r' := RunOf(h, events), Continue(h, RunOf(h, events), more);
    InitialIsLin(h);
    ContinueKeepsHistory(h, Initial(h), events);
    ContinueKeepsHistory(h, r, more);
    LaterInLog(r, r', t, u);
  }
}
