/** The concurrent key-value store of concurrent_kvstore.cpp as a system of threads.

Each operation in progress is a thread. It takes the locks of its buckets in ascending order,
runs its body bucket access by bucket access, and releases the locks. A lock has many readers
or one writer. A step of one thread is atomic; threads interleave freely.
 */
module KvThreads {
  import opened SimpleKv
  import opened DbMaps

  datatype Phase =
    | Locking(next: nat)                          // waits for its lock number `next`
    | Body(i: nat, acc: seq<Value>)               // before access number `i`; `acc` are the values read
    | Unlocking(next: nat, answer: Answer)        // before releasing lock number `next`
    | Finished(answer: Answer, leaked: bool)      // returned; `leaked` says: with its locks still held

  datatype Thread = Thread(op: Op, phase: Phase)

  /** A shared mutex. */
  datatype Lock = Open | Shared(readers: set<nat>) | Exclusive(owner: nat)

  datatype State = State(buckets: seq<Bucket>, locks: seq<Lock>, threads: seq<Thread>)

  datatype Event = Begin(op: Op) | Advance(t: nat)

  // ---------------------------------------------------------------------------------------
  // Lock order

  ghost predicate Ascending(s: seq<nat>) {
    forall i, j :: 0 <= i < j < |s| ==> s[i] < s[j]
  }

  function InsertAscending(s: seq<nat>, x: nat): (r: seq<nat>)
    requires Ascending(s)
    ensures Ascending(r) && r != [] && r[0] == if s == [] || x < s[0] then x else s[0]
  {
    if s == [] || x < s[0] then [x] + s
    else if x == s[0] then s
    else [s[0]] + InsertAscending(s[1..], x)
  }

  lemma {:induction false} InsertedMembers(s: seq<nat>, x: nat, y: nat)
    requires Ascending(s)
    ensures y in InsertAscending(s, x) <==> y in s || y == x
  {
    if s != [] && s[0] < x {
      InsertedMembers(s[1..], x, y);
      assert y in s <==> y == s[0] || y in s[1..];
    }
  }

  /** The buckets of the keys: sorted, and without duplicates. */
  function SortedBuckets(h: Hashing, ks: seq<Key>): (r: seq<nat>)
    requires h.Ok()
    ensures Ascending(r)
  {
    if ks == [] then [] else InsertAscending(SortedBuckets(h, ks[..|ks| - 1]), h.BucketOf(ks[|ks| - 1]))
  }

  /** Exactly the buckets of the keys are listed. */
  lemma {:induction false} SortedMembers(h: Hashing, ks: seq<Key>, b: nat)
    requires h.Ok()
    ensures b in SortedBuckets(h, ks) <==> exists i :: 0 <= i < |ks| && h.BucketOf(ks[i]) == b
  {
    if ks != [] {
      var front, k := ks[..|ks| - 1], ks[|ks| - 1];
      SortedMembers(h, front, b);
      InsertedMembers(SortedBuckets(h, front), h.BucketOf(k), b);
      if b in SortedBuckets(h, front) {
        var i :| 0 <= i < |front| && h.BucketOf(front[i]) == b;
        assert h.BucketOf(ks[i]) == b;
      }
      if exists i :: 0 <= i < |ks| && h.BucketOf(ks[i]) == b {
        var i :| 0 <= i < |ks| && h.BucketOf(ks[i]) == b;
        if i < |front| {
          assert h.BucketOf(front[i]) == b;
        }
      }
    }
  }

  /** The locks that an operation takes, in order. */
  function Locks(h: Hashing, op: Op): (r: seq<nat>)
    requires h.Ok()
    ensures Ascending(r) && forall i :: 0 <= i < |r| ==> r[i] < h.count
  {
    match op
    case Get(k) => [h.BucketOf(k)]
    case Put(k, _) => [h.BucketOf(k)]
    case Append(k, _) => [h.BucketOf(k)]
    case Delete(k) => [h.BucketOf(k)]
    case MultiGet(ks) => InRange(h, ks); SortedBuckets(h, ks)
    case MultiPut(ks, vs) => InRange(h, ks); if |ks| == |vs| then SortedBuckets(h, ks) else []
  }

  lemma InRange(h: Hashing, ks: seq<Key>)
    requires h.Ok()
    ensures forall i :: 0 <= i < |SortedBuckets(h, ks)| ==> SortedBuckets(h, ks)[i] < h.count
  {
    var r := SortedBuckets(h, ks);
    forall i | 0 <= i < |r|
      ensures r[i] < h.count
    {
      SortedMembers(h, ks, r[i]);
    }
  }

  /** Every key of an operation that will be accessed is in a locked bucket. */
  lemma KeysLocked(h: Hashing, op: Op, k: Key)
    requires h.Ok() && k in Keys(op)
    ensures h.BucketOf(k) in Locks(h, op)
  {
    if op.MultiGet? || op.MultiPut? {
      var i :| 0 <= i < |op.keys| && op.keys[i] == k;
      SortedMembers(h, op.keys, h.BucketOf(k));
    }
  }

  // ---------------------------------------------------------------------------------------
  // Steps

  predicate CanTake(l: Lock, write: bool) {
    l.Open? || (!write && l.Shared?)
  }

  function Take(l: Lock, t: nat, write: bool): Lock {
    if write then Exclusive(t) else Shared((if l.Shared? then l.readers else {}) + {t})
  }

  function Drop(l: Lock, t: nat): Lock {
    match l
    case Shared(rs) => if rs - {t} == {} then Open else Shared(rs - {t})
    case _ => Open
  }

  datatype Access = Access(phase: Phase, buckets: seq<Bucket>)

  function Find(h: Hashing, buckets: seq<Bucket>, k: Key): Option<Value>
    requires h.Ok() && |buckets| == h.count
  {
    Lookup(buckets[h.BucketOf(k)], k)
  }

  function Store(h: Hashing, buckets: seq<Bucket>, k: Key, v: Value): seq<Bucket>
    requires h.Ok() && |buckets| == h.count
  {
    buckets[h.BucketOf(k) := Insert(buckets[h.BucketOf(k)], k, v)]
  }

  function Erase(h: Hashing, buckets: seq<Bucket>, k: Key): seq<Bucket>
    requires h.Ok() && |buckets| == h.count
  {
    buckets[h.BucketOf(k) := Remove(buckets[h.BucketOf(k)], k)]
  }

  /** One access of a body. A `MultiGet` that misses a key returns at once and leaves its locks taken. */
  function BodyStep(h: Hashing, op: Op, i: nat, acc: seq<Value>, buckets: seq<Bucket>): (a: Access)
    requires h.Ok() && |buckets| == h.count
    ensures |a.buckets| == |buckets| && !a.phase.Locking?
  {
    match op
    case Get(k) =>
      Access(Unlocking(0, match Find(h, buckets, k) case Some(v) => One(v) case None => Fail), buckets)
    case Put(k, v) =>
      Access(Unlocking(0, Done), Store(h, buckets, k, v))
    case Append(k, v) =>
      if i == 0 then Access(Body(1, Found(Find(h, buckets, k))), buckets)
      else Access(Unlocking(0, Done), Store(h, buckets, k, if acc == [] then v else acc[0] + v))
    case Delete(k) =>
      if i == 0 then Access(Body(1, Found(Find(h, buckets, k))), buckets)
      else if |Erase(h, buckets, k)[h.BucketOf(k)]| < |buckets[h.BucketOf(k)]|
      then Access(Unlocking(0, One(if acc == [] then "" else acc[0])), Erase(h, buckets, k))
      else Access(Unlocking(0, Fail), Erase(h, buckets, k))
    case MultiGet(ks) =>
      if i >= |ks| then Access(Unlocking(0, Many(acc)), buckets)
      else (match Find(h, buckets, ks[i])
            case Some(v) => Access(Body(i + 1, acc + [v]), buckets)
            case None => Access(Finished(Fail, true), buckets))
    case MultiPut(ks, vs) =>
      if |ks| != |vs| then Access(Unlocking(0, Fail), buckets)
      else if i >= |ks| then Access(Unlocking(0, Done), buckets)
      else Access(Body(i + 1, acc), Store(h, buckets, ks[i], vs[i]))
  }

  predicate Sized(h: Hashing, s: State) {
    h.Ok() && |s.buckets| == |s.locks| == h.count
  }

  predicate Enabled(h: Hashing, s: State, t: nat)
    requires Sized(h, s)
  {
    t < |s.threads| &&
    match s.threads[t].phase
    case Locking(n) => n < |Locks(h, s.threads[t].op)|
        && CanTake(s.locks[Locks(h, s.threads[t].op)[n]], Writes(s.threads[t].op))
    case Body(_, _) => true
    case Unlocking(_, _) => true
    case Finished(_, _) => false
  }

  /** What follows the last lock: the body. */
  function AfterLock(ls: seq<nat>, n: nat): Phase {
    if n < |ls| then Locking(n) else Body(0, [])
  }

  /** The step of thread `t`. */
  function Next(h: Hashing, s: State, t: nat): (s': State)
    requires Sized(h, s) && Enabled(h, s, t)
    ensures Sized(h, s') && |s'.threads| == |s.threads|
    ensures forall u :: 0 <= u < |s.threads| ==>
              s'.threads[u].op == s.threads[u].op
              && (u != t ==> s'.threads[u] == s.threads[u])
  {
    var op := s.threads[t].op;
    var ls := Locks(h, op);
    match s.threads[t].phase
    case Locking(n) =>
      State(s.buckets, s.locks[ls[n] := Take(s.locks[ls[n]], t, Writes(op))],
            s.threads[t := Thread(op, AfterLock(ls, n + 1))])
    case Body(i, acc) =>
      var a := BodyStep(h, op, i, acc, s.buckets);
      State(a.buckets, s.locks, s.threads[t := Thread(op, a.phase)])
    case Unlocking(n, answer) =>
      if n < |ls| then
        State(s.buckets, s.locks[ls[n] := Drop(s.locks[ls[n]], t)],
              s.threads[t := Thread(op, Unlocking(n + 1, answer))])
      else State(s.buckets, s.locks, s.threads[t := Thread(op, Finished(answer, false))])
  }

  function Started(h: Hashing, s: State, op: Op): State
    requires Sized(h, s)
  {
    State(s.buckets, s.locks, s.threads + [Thread(op, AfterLock(Locks(h, op), 0))])
  }

  // ---------------------------------------------------------------------------------------
  // Runs

  /** A run: the state, the threads in the order in which each took its last lock, and what the simple store
      answers and contains when it executes their operations in that order. */
  datatype Run = Run(s: State, log: seq<nat>, given: map<nat, Answer>, contents: Contents)

  function Empty(h: Hashing): (s: State)
    requires h.Ok()
    ensures Sized(h, s)
  {
    State(seq(h.count, _ => []), seq(h.count, _ => Open), [])
  }

  /** Thread `t` has its last lock: the simple store executes its operation now. */
  function Logged(r: Run, s': State, t: nat): Run
    requires t < |s'.threads|
  {
    var o := Apply(s'.threads[t].op, r.contents);
    Run(s', r.log + [t], r.given[t := o.answer], o.contents)
  }

  /** One event of a run. An event that is not possible changes nothing. */
  function Act(h: Hashing, r: Run, e: Event): (r': Run)
    requires Sized(h, r.s)
    ensures Sized(h, r'.s)
  {
    match e
    case Begin(op) =>
      var s' := Started(h, r.s, op);
      if Locks(h, op) == [] then Logged(r, s', |r.s.threads|) else r.(s := s')
    case Advance(t) =>
      if !Enabled(h, r.s, t) then r
      else
        var s' := Next(h, r.s, t);
        if r.s.threads[t].phase.Locking? && !s'.threads[t].phase.Locking? then Logged(r, s', t) else r.(s := s')
  }

  /** A run goes on with the given events. */
  function Continue(h: Hashing, r: Run, events: seq<Event>): (r': Run)
    requires Sized(h, r.s)
    ensures Sized(h, r'.s)
  {
    if events == [] then r else Act(h, Continue(h, r, events[..|events| - 1]), events[|events| - 1])
  }

  function Initial(h: Hashing): (r: Run)
    requires h.Ok()
    ensures Sized(h, r.s)
  {
    Run(Empty(h), [], map[], map[])
  }

  /** The run that a sequence of events makes from an empty store. */
  function RunOf(h: Hashing, events: seq<Event>): (r: Run)
    requires h.Ok()
    ensures Sized(h, r.s)
  {
    Continue(h, Initial(h), events)
  }
}
