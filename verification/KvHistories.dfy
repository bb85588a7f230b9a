/** What the concurrent store answers, in terms of what was done to a key before.

The value of a key is read off its edits: what the last put or delete left, followed by what was appended since,
    in order.
Over every run, with operations in the order in which they took their last lock, this is what every operation answers.
 */
module KvHistories {
  import opened SimpleKv
  import opened DbMaps
  import opened KvThreads
  import opened KvLocks
  import opened KvLinear

  /** What an operation does to one key. */
  datatype Edit = Set(value: Value) | Add(value: Value) | Clear

  /** The pairs of a `MultiPut` that are about `k`, in order. */
  function PairEdits(ks: seq<Key>, vs: seq<Value>, k: Key): seq<Edit>
    requires |ks| == |vs|
  {
    if ks == [] then []
    else
      var n := |ks| - 1;
      PairEdits(ks[..n], vs[..n], k) + if ks[n] == k then [Set(vs[n])] else []
  }

  function EditsBy(op: Op, k: Key): seq<Edit> {
    match op
    case Put(key, v) => if key == k then [Set(v)] else []
    case Append(key, v) => if key == k then [Add(v)] else []
    case Delete(key) => if key == k then [Clear] else []
    case MultiPut(ks, vs) => if |ks| == |vs| then PairEdits(ks, vs, k) else []
    case Get(_) => []
    case MultiGet(_) => []
  }

  /** All edits of a key, in the order of the operations. */
  function Edits(ops: seq<Op>, k: Key): seq<Edit> {
    if ops == [] then [] else Edits(ops[..|ops| - 1], k) + EditsBy(ops[|ops| - 1], k)
  }

  /** How many edits there are up to the last put or delete. */
  function LastReset(es: seq<Edit>): (n: nat)
    ensures n <= |es| && (n > 0 ==> !es[n - 1].Add?) && forall i :: n <= i < |es| ==> es[i].Add?
  {
    if es == [] then 0 else if es[|es| - 1].Add? then LastReset(es[..|es| - 1]) else |es|
  }

  /** The appended values one after the other. */
  function Joined(es: seq<Edit>): Value
    requires forall i :: 0 <= i < |es| ==> es[i].Add?
  {
    if es == [] then "" else es[0].value + Joined(es[1..])
  }

  /** The value that the edits of a key leave it with: that of the last put since the last delete, followed by the
      values appended after it, in order; none if there is neither. */
  function ValueAfter(es: seq<Edit>): Option<Value> {
    var n := LastReset(es);
    if n > 0 && es[n - 1].Set? then Some(es[n - 1].value + Joined(es[n..]))
    else if n < |es| then Some(Joined(es[n..]))
    else None
  }

  // ---------------------------------------------------------------------------------------
  // One more edit

  lemma {:induction false} JoinedMore(es: seq<Edit>, v: Value)
    requires forall i :: 0 <= i < |es| ==> es[i].Add?
    ensures Joined(es + [Add(v)]) == Joined(es) + v
  {
    if es == [] {
      assert (es + [Add(v)])[1..] == [];
    } else {
      assert (es + [Add(v)])[1..] == es[1..] + [Add(v)];
      JoinedMore(es[1..], v);
    }
  }

  lemma AfterReset(es: seq<Edit>, e: Edit)
    requires !e.Add?
    ensures ValueAfter(es + [e]) == if e.Set? then Some(e.value) else None
  {
    var all := es + [e];
    assert LastReset(all) == |all| && all[|all|..] == [];
    if e.Set? {
      assert e.value + "" == e.value;
    }
  }

  lemma AfterAdd(es: seq<Edit>, v: Value)
    ensures ValueAfter(es + [Add(v)])
         == Some(match ValueAfter(es) case Some(w) => w + v case None => v)
  {
    var all, n := es + [Add(v)], LastReset(es);
    assert all[..|es|] == es;
    assert LastReset(all) == n && all[n..] == es[n..] + [Add(v)];
    JoinedMore(es[n..], v);
    if n > 0 && es[n - 1].Set? {
      assert es[n - 1].value + (Joined(es[n..]) + v) == es[n - 1].value + Joined(es[n..]) + v;
    } else if n == |es| {
      assert es[n..] == [] && "" + v == v;
    }
  }

  lemma {:induction false} PutFirstEdits(m: Contents, ks: seq<Key>, vs: seq<Value>, n: nat, k: Key, es: seq<Edit>)
    requires n <= |ks| == |vs| && At(m, k) == ValueAfter(es)
    ensures At(PutFirst(m, ks, vs, n), k) == ValueAfter(es + PairEdits(ks[..n], vs[..n], k))
    decreases n
  {
    hide ValueAfter;
    if n == 0 {
      assert es + PairEdits(ks[..n], vs[..n], k) == es;
    } else {
      PutFirstEdits(m, ks, vs, n - 1, k, es);
      assert ks[..n][..n - 1] == ks[..n - 1] && vs[..n][..n - 1] == vs[..n - 1];
      var before := PairEdits(ks[..n - 1], vs[..n - 1], k);
      if ks[n - 1] == k {
        assert es + (before + [Set(vs[n - 1])]) == es + before + [Set(vs[n - 1])];
        AfterReset(es + before, Set(vs[n - 1]));
      } else {
        assert before + [] == before;
      }
    }
  }

  /** One operation of the simple store edits each key. */
  lemma ApplyEdits(op: Op, m: Contents, k: Key, es: seq<Edit>)
    requires At(m, k) == ValueAfter(es)
    ensures At(Apply(op, m).contents, k) == ValueAfter(es + EditsBy(op, k))
  {
    hide ValueAfter;
    if EditsBy(op, k) == [] {
      assert es + EditsBy(op, k) == es;
    }
    match op
    case Put(key, v) =>
      if key == k {
        AfterReset(es, Set(v));
      }
    case Append(key, v) =>
      if key == k {
        AfterAdd(es, v);
      }
    case Delete(key) =>
      if key == k {
        AfterReset(es, Clear);
      }
    case MultiPut(ks, vs) =>
      if |ks| == |vs| {
        PutFirstEdits(m, ks, vs, |ks|, k, es);
        assert ks[..|ks|] == ks && vs[..|vs|] == vs;
      }
    case _ =>
  }

  /** The contents of the simple store are what the edits leave. */
  lemma {:induction false} ContentsAreEdits(ops: seq<Op>, k: Key)
    ensures At(ApplyAll(ops).1, k) == ValueAfter(Edits(ops, k))
  {
    hide Apply, EditsBy;
    if ops == [] {
      assert LastReset(Edits(ops, k)) == 0;
    } else {
      var front := ops[..|ops| - 1];
      ContentsAreEdits(front, k);
      ApplyEdits(ops[|ops| - 1], ApplyAll(front).1, k, Edits(front, k));
    }
  }

  // ---------------------------------------------------------------------------------------
  // The answers

  /** What an operation must answer after the operations `before`: the values that the edits of its keys have left, or
      that there is none. */
  ghost predicate Answers(op: Op, before: seq<Op>, answer: Answer) {
    match op
    case Get(k) => answer == (match ValueAfter(Edits(before, k)) case Some(v) => One(v) case None => Fail)
    case Delete(k) => answer == (match ValueAfter(Edits(before, k)) case Some(v) => One(v) case None => Fail)
    case Put(_, _) => answer == Done
    case Append(_, _) => answer == Done
    case MultiPut(ks, vs) => answer == if |ks| == |vs| then Done else Fail
    case MultiGet(ks) =>
      if exists i :: 0 <= i < |ks| && ValueAfter(Edits(before, ks[i])).None? then answer == Fail
      else
        && answer.Many? && |answer.values| == |ks|
        && forall i :: 0 <= i < |ks| ==> Some(answer.values[i]) == ValueAfter(Edits(before, ks[i]))
  }

  lemma ApplyAnswers(op: Op, before: seq<Op>)
    ensures Answers(op, before, Apply(op, ApplyAll(before).1).answer)
  {
    hide ValueAfter, Edits, ApplyAll;
    var m := ApplyAll(before).1;
    match op
    case Get(k) => ContentsAreEdits(before, k);
    case Delete(k) => ContentsAreEdits(before, k);
    case MultiGet(ks) =>
      forall i | 0 <= i < |ks|
        ensures At(m, ks[i]) == ValueAfter(Edits(before, ks[i]))
      {
        ContentsAreEdits(before, ks[i]);
      }
    case _ =>
  }

  /** The answer at place `i` is that of the operation after those before it. */
  lemma {:induction false} AnswerAtPlace(ops: seq<Op>, i: nat)
    requires i < |ops|
    ensures Answers(ops[i], ops[..i], ApplyAll(ops).0[i])
    decreases |ops|
  {
    hide Apply, Answers;
    var front := ops[..|ops| - 1];
    if i < |front| {
      AnswerAtPlace(front, i);
      assert front[..i] == ops[..i];
    } else {
      ApplyAnswers(ops[i], front);
    }
  }

  /** In every run, each operation that returned has answered what was done to its keys before it, in the order of the
      last locks. */
  lemma AnswersAreHistories(h: Hashing, events: seq<Event>, t: nat) returns (i: nat)
    requires h.Ok() && t < |RunOf(h, events).s.threads| && RunOf(h, events).s.threads[t].phase.Finished?
    ensures var r := RunOf(h, events);
            && Listed(r) && i < |r.log| && r.log[i] == t
            && Answers(r.s.threads[t].op, OpsOf(r.s, r.log)[..i], r.s.threads[t].phase.answer)
  {
    hide Answers, ApplyAll, Lin;
    i := AnswersAreSequential(h, events, t);
    AnswerAtPlace(OpsOf(RunOf(h, events).s, RunOf(h, events).log), i);
  }

  /** When no operation is in its body, the buckets hold what the edits have left. */
  lemma BucketsAreHistories(h: Hashing, events: seq<Event>, k: Key)
    requires h.Ok()
    requires forall t :: 0 <= t < |RunOf(h, events).s.threads| ==> !RunOf(h, events).s.threads[t].phase.Body?
    ensures var r := RunOf(h, events);
            Listed(r) && Find(h, r.s.buckets, k) == ValueAfter(Edits(OpsOf(r.s, r.log), k))
  {
    hide ApplyAll, ValueAfter, Edits, Lin;
    ContentsAreSequential(h, events, k);
    ContentsAreEdits(OpsOf(RunOf(h, events).s, RunOf(h, events).log), k);
  }
}
