/** The bucket lists of the concurrent store (concurrent_kvstore.hpp). */
module DbMaps {
  import opened SimpleKv

  datatype Item = Item(key: Key, value: Value)

  type Bucket = seq<Item>

  /** The number of buckets, and the hash function. */
  datatype Hashing = Hashing(count: nat, hash: Key -> nat) {
    predicate Ok() {
      count > 0
    }

    function BucketOf(k: Key): (b: nat)
      requires Ok()
      ensures b < count
    {
      hash(k) % count
    }
  }

  /** The value of the first item with key `k`. */
  function Lookup(l: Bucket, k: Key): Option<Value> {
    if l == [] then None else if l[0].key == k then Some(l[0].value) else Lookup(l[1..], k)
  }

  /** The first item with key `k` gets the value; if there is none, one is appended. */
  function Insert(l: Bucket, k: Key, v: Value): Bucket {
    if l == [] then [Item(k, v)]
    else if l[0].key == k then [Item(k, v)] + l[1..]
    else [l[0]] + Insert(l[1..], k, v)
  }

  /** All items with key `k` go. */
  function Remove(l: Bucket, k: Key): Bucket {
    if l == [] then []
    else if l[0].key == k then Remove(l[1..], k)
    else [l[0]] + Remove(l[1..], k)
  }

  lemma {:induction false} LookupInsert(l: Bucket, k: Key, v: Value, k': Key)
    ensures Lookup(Insert(l, k, v), k') == if k' == k then Some(v) else Lookup(l, k')
  {
    if l != [] && l[0].key != k {
      LookupInsert(l[1..], k, v, k');
      assert Insert(l, k, v)[1..] == Insert(l[1..], k, v);
    } else if l != [] {
      assert Insert(l, k, v)[1..] == l[1..];
    }
  }

  lemma {:induction false} LookupRemove(l: Bucket, k: Key, k': Key)
    ensures Lookup(Remove(l, k), k') == if k' == k then None else Lookup(l, k')
  {
    if l != [] {
      LookupRemove(l[1..], k, k');
      if l[0].key != k {
        assert Remove(l, k)[1..] == Remove(l[1..], k);
      }
    }
  }

  /** Something is removed exactly when the key is found. */
  lemma {:induction false} RemoveShrinks(l: Bucket, k: Key)
    ensures |Remove(l, k)| <= |l|
    ensures |Remove(l, k)| < |l| <==> Lookup(l, k).Some?
  {
    if l != [] {
      RemoveShrinks(l[1..], k);
    }
  }

  /** No key has two items, so lookups do not depend on the order. */
  ghost predicate Distinct(l: Bucket) {
    forall i, j :: 0 <= i < j < |l| ==> l[i].key != l[j].key
  }

  lemma {:induction false} LookupAbsent(l: Bucket, k: Key)
    ensures Lookup(l, k).None? <==> forall i :: 0 <= i < |l| ==> l[i].key != k
  {
    if l != [] {
      LookupAbsent(l[1..], k);
      assert forall i :: 1 <= i < |l| ==> l[i] == l[1..][i - 1];
    }
  }

  lemma {:induction false} InsertKeys(l: Bucket, k: Key, v: Value)
    ensures |Insert(l, k, v)| == if Lookup(l, k).Some? then |l| else |l| + 1
    ensures forall i :: 0 <= i < |Insert(l, k, v)| ==> Insert(l, k, v)[i].key == if i < |l| then l[i].key else k
  {
    if l != [] && l[0].key != k {
      InsertKeys(l[1..], k, v);
    }
  }

  lemma InsertKeepsDistinct(l: Bucket, k: Key, v: Value)
    requires Distinct(l)
    ensures Distinct(Insert(l, k, v))
  {
    InsertKeys(l, k, v);
    LookupAbsent(l, k);
  }

  /** How an insertion goes on from item `i`. */
  lemma InsertAt(l: Bucket, key: Key, value: Value, i: nat)
    requires i < |l|
    ensures l[..i] + Insert(l[i..], key, value)
         == if l[i].key == key then l[i := Item(key, value)] else l[..i + 1] + Insert(l[i + 1..], key, value)
  {
    hide Insert;
    var rest := l[i + 1..];
    InsertFirst(l[i..], key, value);
    assert l[i..][1..] == rest;
    if l[i].key == key {
      Replaced(l, i, Item(key, value));
    } else {
      Regroup(l[..i], l[i], Insert(rest, key, value));
      Extended(l, i);
    }
  }

  lemma InsertFirst(l: Bucket, key: Key, value: Value)
    requires l != []
    ensures Insert(l, key, value) == if l[0].key == key then [Item(key, value)] + l[1..]
              else [l[0]] + Insert(l[1..], key, value)
  {
  }

  lemma Replaced(l: Bucket, i: nat, x: Item)
    requires i < |l|
    ensures l[i := x] == l[..i] + ([x] + l[i + 1..])
  {
  }

  lemma Extended(l: Bucket, i: nat)
    requires i < |l|
    ensures l[..i + 1] == l[..i] + [l[i]]
  {
  }

  lemma Regroup(a: Bucket, x: Item, b: Bucket)
    ensures a + ([x] + b) == a + [x] + b
  {
  }

  class DbMap {
    const h: Hashing
    const buckets: array<Bucket>

    ghost predicate Valid()
      reads this, buckets
    {
      h.Ok() && buckets.Length == h.count && forall b :: 0 <= b < buckets.Length ==> Distinct(buckets[b])
    }

    constructor (h: Hashing)
      requires h.Ok()
      ensures Valid() && this.h == h && fresh(buckets)
      ensures forall b :: 0 <= b < buckets.Length ==> buckets[b] == []
    {
      this.h := h;
      this.buckets := new Bucket[h.count](_ => []);
    }

    method GetIfExists(b: nat, key: Key) returns (r: Option<Value>)
      requires Valid() && b < buckets.Length
      ensures r == Lookup(buckets[b], key)
    {
      var l := buckets[b];
      for i := 0 to |l|
        invariant Lookup(l[i..], key) == Lookup(l, key)
      {
        if l[i].key == key {
          return Some(l[i].value);
        }
        assert l[i..][1..] == l[i + 1..];
      }
      return None;
    }

    method InsertItem(b: nat, key: Key, value: Value)
      requires Valid() && b < buckets.Length
      modifies buckets
      ensures Valid()
      ensures buckets[b] == Insert(old(buckets[b]), key, value)
      ensures forall c :: 0 <= c < buckets.Length && c != b ==> buckets[c] == old(buckets[c])
    {
      var l := buckets[b];
      InsertKeepsDistinct(l, key, value);
      for i := 0 to |l|
        invariant buckets[..] == old(buckets[..]) && Insert(l, key, value) == l[..i] + Insert(l[i..], key, value)
      {
        InsertAt(l, key, value, i);
        if l[i].key == key {
          buckets[b] := l[i := Item(key, value)];
          return;
        }
      }
      assert l[..|l|] == l && l[|l|..] == [];
      buckets[b] := l + [Item(key, value)];
    }

    method RemoveItem(b: nat, key: Key) returns (removed: bool)
      requires Valid() && b < buckets.Length
      modifies buckets
      ensures Valid()
      ensures buckets[b] == Remove(old(buckets[b]), key) && (removed <==> Lookup(old(buckets[b]), key).Some?)
      ensures forall c :: 0 <= c < buckets.Length && c != b ==> buckets[c] == old(buckets[c])
    {
      var l, kept := buckets[b], [];
      for i := 0 to |l|
        invariant Remove(l, key) == kept + Remove(l[i..], key)
        invariant forall x, y :: 0 <= x < y < |kept| ==> kept[x].key != kept[y].key
        invariant forall x, y :: 0 <= x < |kept| && i <= y < |l| ==> kept[x].key != l[y].key
      {
        assert l[i..][1..] == l[i + 1..];
        if l[i].key != key {
          kept := kept + [l[i]];
        }
      }
      RemoveShrinks(l, key);
      removed := |kept| < |l|;
      buckets[b] := kept;
    }
  }
}
