/** The sequential key-value store of simple_kvstore.cpp: what each operation answers and leaves behind.

It is the specification that the concurrent store must refine. When an operation returns false
only that counts; what it may have put in the response is not looked at.
 */
module SimpleKv {
  type Key = string
  type Value = string

  datatype Option<+T> = None | Some(value: T)

  datatype Op =
    | Get(key: Key)
    | Put(key: Key, value: Value)
    | Append(key: Key, value: Value)
    | Delete(key: Key)
    | MultiGet(keys: seq<Key>)
    | MultiPut(keys: seq<Key>, values: seq<Value>)

  /** False, or true with what the response carries. */
  datatype Answer = Fail | Done | One(value: Value) | Many(values: seq<Value>)

  type Contents = map<Key, Value>

  datatype Outcome = Outcome(answer: Answer, contents: Contents)

  function At(m: Contents, k: Key): Option<Value> {
    if k in m then Some(m[k]) else None
  }

  /** The first `n` pairs, stored in order: of two pairs with one key the later one stays. */
  function PutFirst(m: Contents, ks: seq<Key>, vs: seq<Value>, n: nat): Contents
    requires n <= |ks| && n <= |vs|
  {
    if n == 0 then m else PutFirst(m, ks, vs, n - 1)[ks[n - 1] := vs[n - 1]]
  }

  predicate AllIn(ks: seq<Key>, m: Contents) {
    forall i :: 0 <= i < |ks| ==> ks[i] in m
  }

  function ValuesOf(ks: seq<Key>, m: Contents): seq<Value>
    requires AllIn(ks, m)
  {
    seq(|ks|, i requires 0 <= i < |ks| => m[ks[i]])
  }

  /** One operation on the simple store. */
  function Apply(op: Op, m: Contents): Outcome {
    match op
    case Get(k) => Outcome(if k in m then One(m[k]) else Fail, m)
    case Put(k, v) => Outcome(Done, m[k := v])
    case Append(k, v) => Outcome(Done, m[k := if k in m then m[k] + v else v])
    case Delete(k) => if k in m then Outcome(One(m[k]), m - {k}) else Outcome(Fail, m)
    case MultiGet(ks) =>
      if AllIn(ks, m) then Outcome(Many(ValuesOf(ks, m)), m) else Outcome(Fail, m)
    case MultiPut(ks, vs) =>
      if |ks| != |vs| then Outcome(Fail, m) else Outcome(Done, PutFirst(m, ks, vs, |ks|))
  }

  /** Operations one after another: the answers, and the contents at the end. */
  function ApplyAll(ops: seq<Op>): (r: (seq<Answer>, Contents))
    ensures |r.0| == |ops|
  {
    if ops == [] then ([], map[])
    else
      var (answers, m) := ApplyAll(ops[..|ops| - 1]);
      var o := Apply(ops[|ops| - 1], m);
      (answers + [o.answer], o.contents)
  }

  // ---------------------------------------------------------------------------------------
  // Operations are local to their keys

  /** The keys that an operation accesses; a `MultiPut` with too few or too many values accesses none. */
  function Keys(op: Op): set<Key> {
    match op
    case Get(k) => {k}
    case Put(k, _) => {k}
    case Append(k, _) => {k}
    case Delete(k) => {k}
    case MultiGet(ks) => set k | k in ks
    case MultiPut(ks, vs) => if |ks| == |vs| then set k | k in ks else {}
  }

  predicate Writes(op: Op) {
    op.Put? || op.Append? || op.Delete? || op.MultiPut?
  }

  function Restrict(m: Contents, keys: set<Key>): Contents {
    map k | k in m && k in keys :: m[k]
  }

  lemma {:induction false} PutFirstLocal(m: Contents, ks: seq<Key>, vs: seq<Value>, n: nat, keys: set<Key>)
    requires n <= |ks| && n <= |vs| && forall i :: 0 <= i < n ==> ks[i] in keys
    ensures PutFirst(Restrict(m, keys), ks, vs, n) == Restrict(PutFirst(m, ks, vs, n), keys)
    ensures forall k :: k !in keys ==> At(PutFirst(m, ks, vs, n), k) == At(m, k)
  {
    if n > 0 {
      PutFirstLocal(m, ks, vs, n - 1, keys);
    }
  }

  /** An operation reads and writes nothing but its keys. */
  lemma ApplyLocal(op: Op, m: Contents, keys: set<Key>)
    requires Keys(op) <= keys
    ensures Apply(op, Restrict(m, keys)) == Outcome(Apply(op, m).answer, Restrict(Apply(op, m).contents, keys))
  {
    match op
    case MultiPut(ks, vs) =>
      if |ks| == |vs| {
        forall i | 0 <= i < |ks|
          ensures ks[i] in keys
        {
          assert ks[i] in Keys(op);
        }
        PutFirstLocal(m, ks, vs, |ks|, keys);
      }
    case MultiGet(ks) =>
      forall i | 0 <= i < |ks|
        ensures ks[i] in keys && (ks[i] in m <==> ks[i] in Restrict(m, keys))
      {
        assert ks[i] in Keys(op);
      }
      if AllIn(ks, m) {
        assert ValuesOf(ks, m) == ValuesOf(ks, Restrict(m, keys));
      } else {
        assert !AllIn(ks, Restrict(m, keys));
      }
    case _ =>
  }

  lemma ApplyFrame(op: Op, m: Contents, k: Key)
    requires k !in Keys(op) || !Writes(op)
    ensures At(Apply(op, m).contents, k) == At(m, k)
  {
    if op.MultiPut? && |op.keys| == |op.values| {
      PutFirstLocal(m, op.keys, op.values, |op.keys|, Keys(op));
    }
  }

  // ---------------------------------------------------------------------------------------
  // What is left of an operation once it holds its locks

  /** The rest of the body of `op` from step `i` on, where `acc` holds the values read so far, as it
      would run on the contents `m` undisturbed. */
  function Rest(op: Op, i: nat, acc: seq<Value>, m: Contents): Outcome
    decreases 2 + Length(op) - (if i < 2 + Length(op) then i else 2 + Length(op))
  {
    match op
    case Get(k) => Outcome(if k in m then One(m[k]) else Fail, m)
    case Put(k, v) => Outcome(Done, m[k := v])
    case Append(k, v) =>
      if i == 0 then Rest(op, 1, Found(At(m, k)), m)
      else Outcome(Done, m[k := if acc == [] then v else acc[0] + v])
    case Delete(k) =>
      if i == 0 then Rest(op, 1, Found(At(m, k)), m)
      else if k in m then Outcome(One(if acc == [] then "" else acc[0]), m - {k})
      else Outcome(Fail, m)
    case MultiGet(ks) =>
      if i >= |ks| then Outcome(Many(acc), m)
      else if ks[i] in m then Rest(op, i + 1, acc + [m[ks[i]]], m)
      else Outcome(Fail, m)
    case MultiPut(ks, vs) =>
      if |ks| != |vs| then Outcome(Fail, m)
      else if i >= |ks| then Outcome(Done, m)
      else Rest(op, i + 1, acc, m[ks[i] := vs[i]])
  }

  function Length(op: Op): nat {
    match op
    case MultiGet(ks) => |ks|
    case MultiPut(ks, _) => |ks|
    case _ => 0
  }

  /** The optional item that a lookup gives, as the body keeps it. */
  function Found(o: Option<Value>): seq<Value> {
    match o
    case None => []
    case Some(v) => [v]
  }

  lemma {:induction false} RestGets(op: Op, i: nat, acc: seq<Value>, m: Contents)
    requires op.MultiGet? && i <= |op.keys|
    requires |acc| == i && forall j :: 0 <= j < i ==> op.keys[j] in m && acc[j] == m[op.keys[j]]
    ensures Rest(op, i, acc, m) == Apply(op, m)
    decreases |op.keys| - i
  {
    if i < |op.keys| && op.keys[i] in m {
      RestGets(op, i + 1, acc + [m[op.keys[i]]], m);
    } else if i == |op.keys| {
      assert acc == ValuesOf(op.keys, m);
    }
  }

  lemma {:induction false} RestPuts(op: Op, i: nat, acc: seq<Value>, m: Contents)
    requires op.MultiPut? && i <= |op.keys| == |op.values|
    ensures Rest(op, i, acc, PutFirst(m, op.keys, op.values, i)) == Apply(op, m)
    decreases |op.keys| - i
  {
    if i < |op.keys| {
      RestPuts(op, i + 1, acc, m);
    }
  }

  /** The whole body, undisturbed, is the operation. */
  lemma RestIsApply(op: Op, m: Contents)
    ensures Rest(op, 0, [], m) == Apply(op, m)
  {
    match op
    case MultiGet(ks) => RestGets(op, 0, [], m);
    case MultiPut(ks, vs) =>
      if |ks| == |vs| {
        RestPuts(op, 0, [], m);
      }
    case _ =>
  }
}
