/** Sharding: base-36 bucket numbers, splitting the key space, and overlaps (shard.cpp, shard.hpp).

A bound of a shard is a string of `g` characters among 0-9 and A-Z, and stands for a number below
36^g. The maximal granularity is a parameter.
 */
module Shards {
  import opened Arithmetic

  const BASE: nat := 36

  /** GRANULARITY_OPTS[g], the number of buckets at granularity `g`. */
  function Pow(g: nat): (p: nat)
    ensures p >= 1
  {
    if g == 0 then 1 else BASE * Pow(g - 1)
  }

  method Power(g: nat) returns (p: nat)
    ensures p == Pow(g)
  {
    p := 1;
    for i := 0 to g
      invariant p == Pow(i)
    {
      p := p * BASE;
    }
  }

  /** The table GRANULARITY_OPTS, as it is computed. */
  method GranularityOpts(max: nat) returns (opts: seq<nat>)
    ensures |opts| == max + 1 && forall g :: 0 <= g <= max ==> opts[g] == Pow(g)
  {
    hide Pow;
    opts := [];
    for granularity := 0 to max + 1
      invariant |opts| == granularity && forall g :: 0 <= g < granularity ==> opts[g] == Pow(g)
    {
      var buckets := Power(granularity);
      opts := opts + [buckets];
    }
  }

  // ---------------------------------------------------------------------------------------
  // Digits

  type Digits = seq<nat>

  ghost predicate Proper(ds: Digits) {
    forall i :: 0 <= i < |ds| ==> ds[i] < BASE
  }

  /** The number that digits stand for, the most significant first. */
  function Value(ds: Digits): nat {
    if ds == [] then 0 else ds[0] * Pow(|ds| - 1) + Value(ds[1..])
  }

  /** The `g` digits of a number. */
  function DigitsOf(b: nat, g: nat): (ds: Digits)
    ensures |ds| == g
  {
    if g == 0 then [] else [b / Pow(g - 1)] + DigitsOf(b % Pow(g - 1), g - 1)
  }

  lemma QuotientBound(b: nat, g: nat)
    requires g > 0 && b < Pow(g)
    ensures b / Pow(g - 1) < BASE && b % Pow(g - 1) < Pow(g - 1)
    ensures (b / Pow(g - 1)) * Pow(g - 1) + b % Pow(g - 1) == b
  {
    var p := Pow(g - 1);
    assert b == (b / p) * p + b % p;
    if b / p >= BASE {
      MulAtMost(BASE, b / p, p);
    }
  }

  lemma {:induction false} ValueBound(ds: Digits)
    requires Proper(ds)
    ensures Value(ds) < Pow(|ds|)
  {
    if ds != [] {
      ValueBound(ds[1..]);
      MulAtMost(ds[0] + 1, BASE, Pow(|ds| - 1));
      assert (ds[0] + 1) * Pow(|ds| - 1) == ds[0] * Pow(|ds| - 1) + Pow(|ds| - 1);
    }
  }

  /** Writing a number and reading it gives it back. */
  lemma {:induction false} ValueOfDigits(b: nat, g: nat)
    requires b < Pow(g)
    ensures Proper(DigitsOf(b, g)) && Value(DigitsOf(b, g)) == b
  {
    if g > 0 {
      QuotientBound(b, g);
      ValueOfDigits(b % Pow(g - 1), g - 1);
      assert DigitsOf(b, g)[1..] == DigitsOf(b % Pow(g - 1), g - 1);
    }
  }

  /** Reading digits and writing the number gives them back. */
  lemma {:induction false} DigitsOfValue(ds: Digits)
    requires Proper(ds)
    ensures DigitsOf(Value(ds), |ds|) == ds
  {
    if ds != [] {
      ValueBound(ds[1..]);
      DigitsOfValue(ds[1..]);
      Division(ds[0], Pow(|ds| - 1), Value(ds[1..]));
    }
  }

  // ---------------------------------------------------------------------------------------
  // Characters

  /** VALID_CHARS[i]. */
  function CharOf(i: nat): char
    requires i < BASE
  {
    (if i < 10 then 48 + i else 55 + i) as char
  }

  function Upper(c: char): char {
    if 'a' <= c <= 'z' then (c as int - 32) as char else c
  }

  predicate IsValid(c: char) {
    '0' <= Upper(c) <= '9' || 'A' <= Upper(c) <= 'Z'
  }

  /** The position of the upper-case form of `c` in VALID_CHARS. */
  function IndexOf(c: char): (i: nat)
    requires IsValid(c)
    ensures i < BASE && CharOf(i) == Upper(c)
  {
    var u := Upper(c) as int;
    if u < 65 then u - 48 else u - 55
  }

  predicate AllValid(s: string) {
    forall i :: 0 <= i < |s| ==> IsValid(s[i])
  }

  function ToUpper(s: string): string {
    seq(|s|, i requires 0 <= i < |s| => Upper(s[i]))
  }

  ghost function Text(ds: Digits): string
    requires Proper(ds)
  {
    seq(|ds|, i requires 0 <= i < |ds| => CharOf(ds[i]))
  }

  ghost function Indices(s: string): (ds: Digits)
    requires AllValid(s)
    ensures Proper(ds) && |ds| == |s|
  {
    seq(|s|, i requires 0 <= i < |s| => IndexOf(s[i]))
  }

  lemma IndexOfChar(i: nat)
    requires i < BASE
    ensures IsValid(CharOf(i)) && IndexOf(CharOf(i)) == i && Upper(CharOf(i)) == CharOf(i)
  {
  }

  lemma IndicesOfText(ds: Digits)
    requires Proper(ds)
    ensures AllValid(Text(ds)) && Indices(Text(ds)) == ds
  {
    forall i | 0 <= i < |ds|
      ensures IsValid(Text(ds)[i]) && IndexOf(Text(ds)[i]) == ds[i]
    {
      IndexOfChar(ds[i]);
    }
  }

  lemma TextOfIndices(s: string)
    requires AllValid(s)
    ensures Text(Indices(s)) == ToUpper(s)
  {
  }

  /** `std::string` comparison. */
  predicate Less(s: string, t: string) {
    if s == [] || t == [] then s == [] && t != []
    else s[0] < t[0] || (s[0] == t[0] && Less(s[1..], t[1..]))
  }

  predicate AtMost(s: string, t: string) {
    !Less(t, s)
  }

  /** The order of bound strings is the order of their numbers. */
  lemma {:induction false} OrderPreserved(a: Digits, b: Digits)
    requires Proper(a) && Proper(b) && |a| == |b|
    ensures Less(Text(a), Text(b)) <==> Value(a) < Value(b)
  {
    if a != [] {
      var p := Pow(|a| - 1);
      OrderPreserved(a[1..], b[1..]);
      ValueBound(a[1..]);
      ValueBound(b[1..]);
      assert Text(a)[1..] == Text(a[1..]) && Text(b)[1..] == Text(b[1..]);
      if a[0] < b[0] {
        LeadingDigit(a[0], b[0], p, Value(a[1..]), Value(b[1..]));
      } else if b[0] < a[0] {
        LeadingDigit(b[0], a[0], p, Value(b[1..]), Value(a[1..]));
      }
    }
  }

  lemma LeadingDigit(x: nat, y: nat, p: nat, r: nat, s: nat)
    requires x < y && r < p
    ensures x * p + r < y * p + s
  {
    MulAtMost(x + 1, y, p);
    assert (x + 1) * p == x * p + p;
  }

  /** The name of bucket `b` at granularity `g`. */
  ghost function Name(b: nat, g: nat): (s: string)
    requires b < Pow(g)
    ensures |s| == g
  {
    ValueOfDigits(b, g);
    Text(DigitsOf(b, g))
  }

  /** The bucket of a string of valid characters. */
  ghost function Number(s: string): (b: nat)
    requires AllValid(s)
    ensures b < Pow(|s|)
  {
    ValueBound(Indices(s));
    Value(Indices(s))
  }

  /** Names and numbers are inverse. */
  lemma NumberOfName(b: nat, g: nat)
    requires b < Pow(g)
    ensures AllValid(Name(b, g)) && Number(Name(b, g)) == b
  {
    ValueOfDigits(b, g);
    IndicesOfText(DigitsOf(b, g));
  }

  lemma NameOfNumber(s: string)
    requires AllValid(s)
    ensures Name(Number(s), |s|) == ToUpper(s)
  {
    DigitsOfValue(Indices(s));
    TextOfIndices(s);
  }

  lemma NamesOrdered(a: nat, b: nat, g: nat)
    requires a < Pow(g) && b < Pow(g)
    ensures Less(Name(a, g), Name(b, g)) <==> a < b
  {
    ValueOfDigits(a, g);
    ValueOfDigits(b, g);
    OrderPreserved(DigitsOf(a, g), DigitsOf(b, g));
  }

  // ---------------------------------------------------------------------------------------
  // The conversions as they are computed

  lemma DigitsUnfold(b: nat, g: nat)
    requires g > 0
    ensures DigitsOf(b, g) == [b / Pow(g - 1)] + DigitsOf(b % Pow(g - 1), g - 1)
  {
  }

  /** The indices that `bucket_to_str` computes first. */
  method BucketIndices(bucket: nat, granularity: nat) returns (indices: seq<nat>)
    requires granularity > 0 ==> bucket < Pow(granularity)
    ensures |indices| == granularity && (granularity > 0 ==> indices == DigitsOf(bucket, granularity))
  {
    hide Pow, DigitsOf;
    indices := [];
    var left: nat := bucket;
    for i := 0 to granularity
      invariant |indices| == i && (granularity > 0 ==> left < Pow(granularity - i))
      invariant granularity > 0 ==> DigitsOf(bucket, granularity) == indices + DigitsOf(left, granularity - i)
    {
      QuotientBound(left, granularity - i);
      DigitsUnfold(left, granularity - i);
      indices := indices + [left / Pow(granularity - i - 1)];
      left := left % Pow(granularity - i - 1);
    }
  }

  /** `bucket_to_str`; with granularity 0 it gives the empty string for any number. */
  method BucketToStr(bucket: nat, granularity: nat) returns (res: string)
    requires granularity > 0 ==> bucket < Pow(granularity)
    ensures res == if granularity == 0 then "" else Name(bucket, granularity)
  {
    var indices := BucketIndices(bucket, granularity);
    if granularity > 0 {
      ValueOfDigits(bucket, granularity);
    }
    hide Pow, DigitsOf, Value;
    res := "";
    for i := 0 to granularity
      invariant |res| == i && forall j :: 0 <= j < i ==> res[j] == CharOf(indices[j])
    {
      res := res + [CharOf(indices[i])];
    }
  }

  lemma ValueUnfold(ds: Digits)
    requires ds != []
    ensures Value(ds) == ds[0] * Pow(|ds| - 1) + Value(ds[1..])
  {
  }

  method StrToBucket(s: string) returns (bucket: nat)
    requires AllValid(s)
    ensures bucket == Number(s)
  {
    hide Pow, Value, Number, IndexOf;
    var granularity := |s|;
    bucket := 0;
    NumberIsValue(s);
    for i := 0 to granularity
      invariant bucket + Value(Indices(s)[i..]) == Number(s)
    {
      ghost var rest := Indices(s)[i..];
      assert rest[1..] == Indices(s)[i + 1..] && rest[0] == IndexOf(s[i]);
      ValueUnfold(rest);
      bucket := bucket + IndexOf(s[i]) * Pow(granularity - i - 1);
    }
  }

  lemma NumberIsValue(s: string)
    requires AllValid(s)
    ensures Indices(s)[0..] == Indices(s) && Value(Indices(s)) == Number(s)
    ensures Value(Indices(s)[|s|..]) == 0
  {
  }

  // ---------------------------------------------------------------------------------------
  // Shards

  datatype Shard = Shard(lower: string, upper: string)

  /** `contains`: the first characters of the key, as many as the bounds have, lie between the bounds. */
  predicate Contains(shard: Shard, s: string) {
    var prefix := Prefix(s, |shard.lower|);
    AtMost(shard.lower, prefix) && AtMost(prefix, shard.upper)
  }

  /** The shard of buckets `lo` to `hi`. */
  ghost function Span(lo: nat, hi: nat, g: nat): Shard
    requires lo < Pow(g) && hi < Pow(g)
  {
    Shard(Name(lo, g), Name(hi, g))
  }

  /** A key that starts with `g` valid characters is in the bucket of these characters. */
  ghost function BucketOfKey(s: string, g: nat): (b: nat)
    requires |s| >= g && AllValid(s[..g])
    ensures b < Pow(g)
  {
    Number(s[..g])
  }

  /** For an upper-case key, `contains` is a comparison of bucket numbers. */
  lemma ContainsIsNumeric(lo: nat, hi: nat, g: nat, s: string)
    requires lo < Pow(g) && hi < Pow(g) && |s| >= g && AllValid(s[..g])
    ensures Contains(Span(lo, hi, g), ToUpper(s)) <==> lo <= BucketOfKey(s, g) <= hi
  {
    var b := BucketOfKey(s, g);
    NameOfNumber(s[..g]);
    var u := ToUpper(s);
    assert u[..g] == ToUpper(s[..g]) == Name(b, g);
    assert (if |u| <= g then u else u[..g]) == Name(b, g);
    NamesOrdered(b, lo, g);
    NamesOrdered(hi, b, g);
  }

  // ---------------------------------------------------------------------------------------
  // Splitting the key space

  /** Where shard `i` of `n` begins: the first `buckets % n` shards get one bucket more. */
  function Start(buckets: nat, n: nat, i: nat): nat
    requires n > 0
  {
    i * (buckets / n) + (if i < buckets % n then i else buckets % n)
  }

  lemma StartStep(buckets: nat, n: nat, i: nat)
    requires 0 < n <= buckets && i < n
    ensures Start(buckets, n, i + 1) == Start(buckets, n, i) + buckets / n + (if i < buckets % n then 1 else 0)
    ensures buckets / n >= 1
  {
    assert (i + 1) * (buckets / n) == i * (buckets / n) + buckets / n;
    AtLeastOne(buckets, n);
  }

  lemma AtLeastOne(buckets: nat, n: nat)
    requires 0 < n <= buckets
    ensures buckets / n >= 1
  {
  }

  lemma StartEnds(buckets: nat, n: nat)
    requires n > 0
    ensures Start(buckets, n, 0) == 0 && Start(buckets, n, n) == buckets
  {
    assert buckets == n * (buckets / n) + buckets % n;
    assert 0 * (buckets / n) == 0;
  }

  lemma {:induction false} StartMonotone(buckets: nat, n: nat, i: nat, j: nat)
    requires 0 < n <= buckets && i <= j <= n
    ensures Start(buckets, n, i) <= Start(buckets, n, j)
    decreases j
  {
    if i < j {
      StartMonotone(buckets, n, i, j - 1);
      StartStep(buckets, n, j - 1);
    }
  }

  /** The shards of a split: `n` adjacent intervals of buckets, from the first to the last, none empty, whose sizes
      differ by at most one. */
  ghost predicate IsSplit(shards: seq<Shard>, n: nat, g: nat) {
    && 0 < n <= Pow(g) && |shards| == n
    && forall i :: 0 <= i < n ==> ShardAt(shards[i], n, g, i)
  }

  ghost predicate ShardAt(shard: Shard, n: nat, g: nat, i: nat)
    requires n > 0
  {
    var lo, next := Start(Pow(g), n, i), Start(Pow(g), n, i + 1);
    lo < next <= Pow(g) && shard == Span(lo, next - 1, g)
  }

  lemma StartBounds(buckets: nat, n: nat, i: nat)
    requires 0 < n <= buckets && i < n
    ensures Start(buckets, n, i) < Start(buckets, n, i + 1) <= buckets
  {
    StartStep(buckets, n, i);
    StartMonotone(buckets, n, i + 1, n);
    StartEnds(buckets, n);
  }

  /** The sizes of two shards differ by at most one. */
  lemma SizesBalanced(buckets: nat, n: nat, i: nat, j: nat)
    requires 0 < n <= buckets && i < n && j < n
    ensures Start(buckets, n, i + 1) - Start(buckets, n, i) <= Start(buckets, n, j + 1) - Start(buckets, n, j) + 1
  {
    StartStep(buckets, n, i);
    StartStep(buckets, n, j);
  }

  /** The smallest granularity, at least 1, with enough buckets; 0 if there is none up to `max`. */
  ghost predicate Fits(n: nat, max: nat, g: nat) {
    if n <= Pow(max) then 1 <= g <= max && n <= Pow(g) && forall k :: 1 <= k < g ==> n > Pow(k)
    else g == 0
  }

  lemma {:induction false} PowMonotone(a: nat, b: nat)
    requires a <= b
    ensures Pow(a) <= Pow(b)
    decreases b
  {
    if a < b {
      PowMonotone(a, b - 1);
    }
  }

  method Granularity(n: nat, max: nat) returns (buckets: nat, granularity: nat)
    requires max >= 1
    ensures Fits(n, max, granularity)
    ensures buckets == if n <= Pow(max) then Pow(granularity) else 0
  {
    buckets, granularity := 0, 0;
    for i := 1 to max + 1
      invariant buckets == 0 && granularity == 0 && forall k :: 1 <= k < i ==> n > Pow(k)
    {
      if n <= Pow(i) {
        PowMonotone(i, max);
        return Pow(i), i;
      }
    }
  }

  const SIZE_MOD: nat := 0x1_0000_0000_0000_0000

  /** Bound numbers wrap at 64 bits; `upper` of an empty shard at 0 does. */
  function Upto(lower: nat, size: nat): nat {
    (lower + size + SIZE_MOD - 1) % SIZE_MOD
  }

  method ShardSizes(buckets: nat, n: nat) returns (sizes: seq<nat>)
    requires n > 0
    ensures |sizes| == n && forall i :: 0 <= i < n ==> sizes[i] == buckets / n + if i < buckets % n then 1 else 0
  {
    var size, remainder := buckets / n, buckets % n;
    sizes := seq(n, _ => size);
    for i := 0 to remainder
      invariant |sizes| == n && forall j :: 0 <= j < n ==> sizes[j] == size + if j < i then 1 else 0
    {
      sizes := sizes[i := sizes[i] + 1];
    }
  }

  /** `split_into`. Up to 36^MAX_GRANULARITY shards it splits the key space evenly; for more, every shard has
      empty bounds. */
  method SplitInto(n: nat, max: nat) returns (shards: seq<Shard>, ghost g: nat)
    requires n > 0 && max >= 1 && Pow(max) < SIZE_MOD
    ensures Fits(n, max, g) && |shards| == n
    ensures n <= Pow(max) ==> IsSplit(shards, n, g)
    ensures n > Pow(max) ==> forall i :: 0 <= i < n ==> shards[i] == Shard("", "")
  {
    hide Pow, Start, Name, Upto;
    var buckets, granularity := Granularity(n, max);
    g := granularity;
    var sizes := ShardSizes(buckets, n);
    shards := [];
    var lower := 0;
    StartEnds(buckets, n);
    for i := 0 to n
      invariant |shards| == i
      invariant g > 0 ==> lower == Start(buckets, n, i)
      invariant g > 0 ==> forall j :: 0 <= j < i ==> ShardAt(shards[j], n, g, j)
      invariant g == 0 ==> forall j :: 0 <= j < i ==> shards[j] == Shard("", "")
    {
      var upper := Upto(lower, sizes[i]);
      if g > 0 {
        NextBounds(n, max, g, i, lower, sizes[i]);
      }
      var l := BucketToStr(lower, granularity);
      var u := BucketToStr(upper, granularity);
      shards := shards + [Shard(l, u)];
      lower := lower + sizes[i];
    }
  }

  lemma NextBounds(n: nat, max: nat, g: nat, i: nat, lower: nat, size: nat)
    requires 0 < n <= Pow(g) && 1 <= g <= max && Pow(max) < SIZE_MOD && i < n
    requires lower == Start(Pow(g), n, i) && size == Pow(g) / n + if i < Pow(g) % n then 1 else 0
    ensures lower + size == Start(Pow(g), n, i + 1) && Upto(lower, size) == lower + size - 1
              && lower < lower + size <= Pow(g)
  {
    StartStep(Pow(g), n, i);
    StartBounds(Pow(g), n, i);
    PowMonotone(g, max);
  }

  /** The shard that contains a bucket. */
  lemma {:induction false} Interval(buckets: nat, n: nat, b: nat, k: nat) returns (i: nat)
    requires 0 < n <= buckets && k <= n && b < Start(buckets, n, k)
    ensures i < k && Start(buckets, n, i) <= b < Start(buckets, n, i + 1)
    decreases k
  {
    StartEnds(buckets, n);
    if b >= Start(buckets, n, k - 1) {
      i := k - 1;
    } else {
      i := Interval(buckets, n, b, k - 1);
    }
  }

  /** After a split, a key with enough leading alphanumeric characters is in exactly one shard. */
  lemma ExactlyOneShard(shards: seq<Shard>, n: nat, g: nat, s: string) returns (i: nat)
    requires IsSplit(shards, n, g) && |s| >= g && AllValid(s[..g])
    ensures i < n && Contains(shards[i], ToUpper(s))
    ensures forall j :: 0 <= j < n && Contains(shards[j], ToUpper(s)) ==> j == i
  {
    hide Pow, Start, Number, Name, Contains, ToUpper;
    var b, buckets := BucketOfKey(s, g), Pow(g);
    StartEnds(buckets, n);
    i := Interval(buckets, n, b, n);
    forall j | 0 <= j < n
      ensures Contains(shards[j], ToUpper(s)) <==> j == i
    {
      assert ShardAt(shards[j], n, g, j);
      ContainsIsNumeric(Start(buckets, n, j), Start(buckets, n, j + 1) - 1, g, s);
      if j < i {
        StartMonotone(buckets, n, j + 1, i);
      } else if i < j {
        StartMonotone(buckets, n, i + 1, j);
      }
    }
  }

  /** What `split_into` returns, as `SplitInto` ensures it. */
  ghost predicate SplitResult(shards: seq<Shard>, n: nat, max: nat, g: nat) {
    && |shards| == n
    && (n <= Pow(max) ==> IsSplit(shards, n, g))
    && (n > Pow(max) ==> forall i :: 0 <= i < n ==> shards[i] == Shard("", ""))
  }

  ghost predicate InExactlyOne(shards: seq<Shard>, s: string) {
    exists i ::
      && 0 <= i < |shards| && Contains(shards[i], s)
      && forall j :: 0 <= j < |shards| && Contains(shards[j], s) ==> j == i
  }

  /** Keys are in exactly one shard if and only if the number of shards is at most 36^MAX_GRANULARITY; beyond that every
      key is in every shard. */
  lemma UniqueIffEnoughBuckets(shards: seq<Shard>, n: nat, max: nat, g: nat, s: string)
    requires max >= 1 && n > 0 && Fits(n, max, g) && SplitResult(shards, n, max, g) && |s| >= max && AllValid(s[..max])
    ensures InExactlyOne(shards, ToUpper(s)) <==> n <= Pow(max)
  {
    if n <= Pow(max) {
      assert forall i :: 0 <= i < g ==> s[..g][i] == s[..max][i];
      var i := ExactlyOneShard(shards, n, g, s);
    } else {
      assert Pow(1) == BASE * Pow(0);
      PowMonotone(1, max);
      EmptyBoundsContainAll(ToUpper(s));
      assert Contains(shards[0], ToUpper(s)) && Contains(shards[1], ToUpper(s));
    }
  }

  lemma EmptyBoundsContainAll(s: string)
    ensures Contains(Shard("", ""), s)
  {
    assert |s| > 0 ==> s[..0] == "";
  }

  // ---------------------------------------------------------------------------------------
  // All other keys

  /** What is below a bound is below or above every other string. */
  lemma {:induction false} LessSplits(s: string, t: string, x: string)
    requires Less(s, t)
    ensures Less(s, x) || Less(x, t)
    decreases |x|
  {
    if s != [] && x != [] && t != [] && s[0] == x[0] == t[0] {
      LessSplits(s[1..], t[1..], x[1..]);
    }
  }

  /** Strings that are not below one another are equal. */
  lemma {:induction false} LessTotal(s: string, t: string)
    requires !Less(s, t) && !Less(t, s)
    ensures s == t
    decreases |s|
  {
    if s != [] && t != [] {
      LessTotal(s[1..], t[1..]);
      assert s == [s[0]] + s[1..] && t == [t[0]] + t[1..];
    }
  }

  lemma {:induction false} LessOneWay(s: string, t: string)
    requires Less(s, t)
    ensures !Less(t, s)
    decreases |s|
  {
    if s != [] && s[0] == t[0] {
      LessOneWay(s[1..], t[1..]);
    }
  }

  /** The characters of a key that `contains` looks at. */
  function Prefix(s: string, g: nat): string {
    if |s| <= g then s else s[..g]
  }

  /** How many of the first `k` bucket names are not above `p`. */
  ghost function Rank(p: string, g: nat, k: nat): (n: nat)
    requires k <= Pow(g)
    ensures n <= k
  {
    if k == 0 then 0 else if AtMost(Name(k - 1, g), p) then k else Rank(p, g, k - 1)
  }

  /** The names not above `p` are the first ones. */
  lemma {:induction false} RankSplits(p: string, g: nat, k: nat, x: nat)
    requires x < k <= Pow(g)
    ensures AtMost(Name(x, g), p) <==> x < Rank(p, g, k)
    decreases k
  {
    if AtMost(Name(k - 1, g), p) {
      if Less(p, Name(x, g)) {
        LessSplits(p, Name(x, g), Name(k - 1, g));
        NamesOrdered(k - 1, x, g);
      }
    } else if x < k - 1 {
      RankSplits(p, g, k - 1, x);
    }
  }

  /** For a key whose first characters are not themselves the name of a bucket, `contains` compares its rank. */
  lemma ContainsIsRank(lo: nat, hi: nat, g: nat, s: string)
    requires lo < Pow(g) && hi < Pow(g) && Prefix(s, g) != Name(hi, g)
    ensures Contains(Span(lo, hi, g), s) <==> lo < Rank(Prefix(s, g), g, Pow(g)) <= hi
  {
    var p := Prefix(s, g);
    RankSplits(p, g, Pow(g), lo);
    RankSplits(p, g, Pow(g), hi);
    if AtMost(p, Name(hi, g)) && AtMost(Name(hi, g), p) {
      LessTotal(p, Name(hi, g));
    } else if Less(Name(hi, g), p) {
      LessOneWay(Name(hi, g), p);
    }
  }

  /** After a split no key at all, valid or not, is in two shards. */
  lemma AtMostOneShard(shards: seq<Shard>, n: nat, g: nat, s: string, i: nat, j: nat)
    requires IsSplit(shards, n, g) && i < n && j < n && Contains(shards[i], s) && Contains(shards[j], s)
    ensures i == j
  {
    if i < j {
      ShardsApart(shards, n, g, s, i, j);
    } else if j < i {
      ShardsApart(shards, n, g, s, j, i);
    }
  }

  lemma ShardsApart(shards: seq<Shard>, n: nat, g: nat, s: string, i: nat, j: nat)
    requires IsSplit(shards, n, g) && i < j < n && Contains(shards[i], s)
    ensures !Contains(shards[j], s)
  {
    hide Less, Name, Start, Pow;
    assert ShardAt(shards[i], n, g, i) && ShardAt(shards[j], n, g, j);
    var hi, lo := Start(Pow(g), n, i + 1) - 1, Start(Pow(g), n, j);
    StartMonotone(Pow(g), n, i + 1, j);
    NamesOrdered(hi, lo, g);
    LessSplits(Name(hi, g), Name(lo, g), Prefix(s, g));
  }

  /** Bucket number `b` begins a shard, or is one past the last. */
  ghost predicate IsStart(buckets: nat, n: nat, b: nat)
    requires n > 0
  {
    exists i: nat :: i <= n && Start(buckets, n, i) == b
  }

  /** Numbers strictly inside an interval are those that begin none. */
  lemma InsideIff(buckets: nat, n: nat, b: nat) returns (i: nat)
    requires 0 < n <= buckets && b < buckets
    ensures i < n && Start(buckets, n, i) <= b < Start(buckets, n, i + 1)
    ensures IsStart(buckets, n, b) <==> Start(buckets, n, i) == b
  {
    hide Start;
    StartEnds(buckets, n);
    i := Interval(buckets, n, b, n);
    if j: nat :| j <= n && Start(buckets, n, j) == b {
      if j < i {
        StartBounds(buckets, n, j);
        StartMonotone(buckets, n, j + 1, i);
      } else if i < j {
        StartMonotone(buckets, n, i + 1, j);
      }
    }
  }

  ghost predicate InSomeShard(shards: seq<Shard>, s: string) {
    exists i :: 0 <= i < |shards| && Contains(shards[i], s)
  }

  ghost predicate IsName(p: string, g: nat) {
    exists b: nat :: b < Pow(g) && Name(b, g) == p
  }

  lemma NamedInSome(shards: seq<Shard>, n: nat, g: nat, s: string)
    requires IsSplit(shards, n, g) && IsName(Prefix(s, g), g)
    ensures InSomeShard(shards, s)
  {
    hide Start, Name, Pow, Less;
    var b: nat :| b < Pow(g) && Name(b, g) == Prefix(s, g);
    var i := InsideIff(Pow(g), n, b);
    assert ShardAt(shards[i], n, g, i);
    NamesOrdered(b, Start(Pow(g), n, i), g);
    NamesOrdered(Start(Pow(g), n, i + 1) - 1, b, g);
    assert Contains(shards[i], s);
  }

  lemma UnnamedInside(shards: seq<Shard>, n: nat, g: nat, s: string, i: nat)
    requires IsSplit(shards, n, g) && !IsName(Prefix(s, g), g) && i < n
    ensures var c := Rank(Prefix(s, g), g, Pow(g));
            Contains(shards[i], s) <==> Start(Pow(g), n, i) < c < Start(Pow(g), n, i + 1)
  {
    hide Start, Name, Less, Contains, Rank, Pow;
    assert ShardAt(shards[i], n, g, i);
    ContainsIsRank(Start(Pow(g), n, i), Start(Pow(g), n, i + 1) - 1, g, s);
  }

  /** Exactly which keys have no shard, of all strings: those whose first characters are no bucket's name and lie
      between two shards, or before the first or after the last. */
  lemma LostIff(shards: seq<Shard>, n: nat, g: nat, s: string)
    requires IsSplit(shards, n, g)
    ensures !InSomeShard(shards, s) <==> !IsName(Prefix(s, g), g) && IsStart(Pow(g), n, Rank(Prefix(s, g), g, Pow(g)))
  {
    hide Start, Name, Less, Contains, Rank;
    var buckets, p := Pow(g), Prefix(s, g);
    if IsName(p, g) {
      NamedInSome(shards, n, g, s);
    } else {
      var c := Rank(p, g, buckets);
      StartEnds(buckets, n);
      if c < buckets {
        var i := InsideIff(buckets, n, c);
        UnnamedInside(shards, n, g, s, i);
      }
      forall j | 0 <= j < n
        ensures Contains(shards[j], s) ==> c < buckets && !IsStart(buckets, n, c)
      {
        UnnamedInside(shards, n, g, s, j);
        StartBounds(buckets, n, j);
        if Contains(shards[j], s) {
          InsideIsNoStart(buckets, n, c, j);
        }
      }
    }
  }

  lemma InsideIsNoStart(buckets: nat, n: nat, c: nat, j: nat)
    requires 0 < n <= buckets && j < n && Start(buckets, n, j) < c < Start(buckets, n, j + 1)
    ensures !IsStart(buckets, n, c)
  {
    hide Start;
    forall i: nat | i <= n
      ensures Start(buckets, n, i) != c
    {
      if i <= j {
        StartMonotone(buckets, n, i, j);
      } else {
        StartMonotone(buckets, n, j + 1, i);
      }
    }
  }

  // ---------------------------------------------------------------------------------------
  // Keys that are too short

  /** A short string of digits is below the names that begin with at least its digits, filled up with zeros. */
  lemma {:induction false} ShortBelow(a: Digits, b: Digits)
    requires Proper(a) && Proper(b) && |a| < |b|
    ensures Less(Text(a), Text(b)) <==> Value(a) * Pow(|b| - |a|) <= Value(b)
    decreases |b|
  {
    if a == [] {
      assert Text(a) == [] && Text(b) != [];
    } else {
      var p, q := Pow(|a| - 1), Pow(|b| - |a|);
      ShortBelow(a[1..], b[1..]);
      assert Text(a)[1..] == Text(a[1..]) && Text(b)[1..] == Text(b[1..]);
      ValueBound(a[1..]);
      ValueBound(b[1..]);
      PowAdds(|a| - 1, |b| - |a|);
      ShortStep(a[0], b[0], p, q, Value(a[1..]), Value(b[1..]));
    }
  }

  lemma {:induction false} PowAdds(x: nat, y: nat)
    ensures Pow(x + y) == Pow(x) * Pow(y)
  {
    if x > 0 {
      PowAdds(x - 1, y);
      Associate(BASE, Pow(x - 1), Pow(y));
    }
  }

  lemma Associate(a: nat, b: nat, c: nat)
    ensures a * (b * c) == a * b * c
  {
  }

  lemma ShortStep(x: nat, y: nat, p: nat, q: nat, r: nat, s: nat)
    requires r < p && s < p * q && q > 0
    ensures (x < y || (x == y && r * q <= s)) <==> (x * p + r) * q <= y * (p * q) + s
  {
    assert (x * p + r) * q == x * p * q + r * q;
    Associate(x, p, q);
    if x < y {
      MulAtMost(r + 1, p, q);
      assert (r + 1) * q == r * q + q;
      LeadingDigit(x, y, p * q, r * q, s);
    } else if y < x {
      LeadingDigit(y, x, p * q, s, r * q);
    }
  }

  /** The rank of a short key is its number, filled up with zeros. */
  lemma ShortRank(s: string, g: nat, x: nat)
    requires AllValid(s) && |s| < g && x < Pow(g)
    ensures AtMost(Name(x, g), ToUpper(s)) <==> x < Number(s) * Pow(g - |s|)
  {
    ValueOfDigits(x, g);
    TextOfIndices(s);
    ShortBelow(Indices(s), DigitsOf(x, g));
  }

  lemma ShortRankIs(s: string, g: nat)
    requires AllValid(s) && |s| < g
    ensures Number(s) * Pow(g - |s|) < Pow(g)
    ensures Rank(ToUpper(s), g, Pow(g)) == Number(s) * Pow(g - |s|)
  {
    hide Number, Less, Name, Rank, Pow;
    var v, c := Number(s) * Pow(g - |s|), Rank(ToUpper(s), g, Pow(g));
    PowAdds(|s|, g - |s|);
    MulAtMost(Number(s) + 1, Pow(|s|), Pow(g - |s|));
    assert (Number(s) + 1) * Pow(g - |s|) == v + Pow(g - |s|);
    if c < v {
      ShortRank(s, g, c);
      RankSplits(ToUpper(s), g, Pow(g), c);
    } else if v < c {
      ShortRank(s, g, v);
      RankSplits(ToUpper(s), g, Pow(g), v);
    }
  }

  lemma ShortIsNoName(p: string, g: nat)
    requires |p| < g
    ensures !IsName(p, g)
  {
    forall b: nat | b < Pow(g)
      ensures Name(b, g) != p
    {
      assert |Name(b, g)| == g;
    }
  }

  /** An alphanumeric key that is shorter than the granularity has a shard if and only if its number, filled up with
      zeros, is not the first bucket of a shard. */
  lemma ShortKeyLostIff(shards: seq<Shard>, n: nat, g: nat, s: string)
    requires IsSplit(shards, n, g) && AllValid(s) && |s| < g
    ensures InSomeShard(shards, ToUpper(s))
       <==> forall i: nat :: i < n ==> Start(Pow(g), n, i) != Number(s) * Pow(g - |s|)
  {
    hide Number, Rank, Name, Start;
    ShortRankIs(s, g);
    LostIff(shards, n, g, ToUpper(s));
    assert Prefix(ToUpper(s), g) == ToUpper(s);
    ShortIsNoName(ToUpper(s), g);
    StartEnds(Pow(g), n);
  }

  /** A key of zeros that is too short, the empty key among them, is always lost. */
  lemma ZerosAreLost(shards: seq<Shard>, n: nat, g: nat, s: string)
    requires IsSplit(shards, n, g) && |s| < g && forall i :: 0 <= i < |s| ==> s[i] == '0'
    ensures !InSomeShard(shards, ToUpper(s))
  {
    hide Start, Number, Name, Rank, Less, Contains, Pow, Value, ToUpper;
    NumberOfZeros(s);
    ShortKeyLostIff(shards, n, g, s);
    StartEnds(Pow(g), n);
    assert Number(s) * Pow(g - |s|) == 0;
    assert Start(Pow(g), n, 0) == Number(s) * Pow(g - |s|);
  }

  lemma {:induction false} ValueOfZeros(ds: Digits)
    requires forall i :: 0 <= i < |ds| ==> ds[i] == 0
    ensures Value(ds) == 0
  {
    if ds != [] {
      ValueOfZeros(ds[1..]);
    }
  }

  lemma NumberOfZeros(s: string)
    requires forall i :: 0 <= i < |s| ==> s[i] == '0'
    ensures AllValid(s) && Number(s) == 0
  {
    ValueOfZeros(Indices(s));
  }

  // ---------------------------------------------------------------------------------------
  // Overlaps and splits of one shard

  datatype OverlapStatus = NoOverlap | OverlapStart | OverlapEnd | CompletelyContains | CompletelyContained | BadCase

  function GetOverlap(a: Shard, b: Shard): OverlapStatus {
    if Less(a.upper, b.lower) || Less(b.upper, a.lower) then NoOverlap
    else if AtMost(b.lower, a.lower) && AtMost(a.upper, b.upper) then CompletelyContained
    else if Less(a.lower, b.lower) && Less(b.upper, a.upper) then CompletelyContains
    else if AtMost(b.lower, a.lower) && Less(b.upper, a.upper) then OverlapStart
    else if Less(a.lower, b.lower) && AtMost(a.upper, b.upper) then OverlapEnd
    else BadCase
  }

  /** Bucket `x` is in the interval. */
  predicate In(x: nat, lo: nat, hi: nat) {
    lo <= x <= hi
  }

  /** The status fixes the shape of `a` without `b`, and the pieces that it promises are not empty; the last case of
      the function is never reached. */
  lemma OverlapShape(al: nat, ah: nat, bl: nat, bh: nat, g: nat)
    requires al <= ah < Pow(g) && bl <= bh < Pow(g)
    ensures match GetOverlap(Span(al, ah, g), Span(bl, bh, g))
            case NoOverlap => forall x: nat :: In(x, al, ah) ==> !In(x, bl, bh)
            case CompletelyContained => forall x: nat :: In(x, al, ah) ==> In(x, bl, bh)
            case CompletelyContains =>
              al < bl && bh < ah && forall x: nat :: In(x, al, ah) && !In(x, bl, bh) <==>
                  In(x, al, bl - 1)
                  || In(x, bh + 1, ah)
            case OverlapStart =>
              al <= bh < ah && forall x: nat :: In(x, al, ah) && !In(x, bl, bh) <==> In(x, bh + 1, ah)
            case OverlapEnd =>
              al < bl <= ah && forall x: nat :: In(x, al, ah) && !In(x, bl, bh) <==> In(x, al, bl - 1)
            case BadCase => false
  {
    hide Name, Pow, Less;
    NamesOrdered(ah, bl, g);
    NamesOrdered(bh, al, g);
    NamesOrdered(al, bl, g);
    NamesOrdered(bh, ah, g);
  }

  /** `split_shard` at the midpoint: two adjacent pieces, the first at least as large as the second and at most one
      larger. */
  method SplitMiddle(shard: Shard, ghost lo: nat, ghost hi: nat, ghost g: nat) returns (first: Shard, second: Shard)
    requires lo < hi < Pow(g) && g > 0 && shard == Span(lo, hi, g)
    ensures var mid := lo + (hi - lo) / 2;
            && first == Span(lo, mid, g) && second == Span(mid + 1, hi, g)
            && 1 <= hi - mid <= mid - lo + 1 <= hi - mid + 1
  {
    hide Name, Pow, Number, AllValid;
    NumberOfName(lo, g);
    NumberOfName(hi, g);
    var lower := StrToBucket(shard.lower);
    var upper := StrToBucket(shard.upper);
    var mid := lower + (upper - lower) / 2;
    var lowerUpper := BucketToStr(mid, |shard.lower|);
    var upperLower := BucketToStr(mid + 1, |shard.lower|);
    first, second := Shard(shard.lower, lowerUpper), Shard(upperLower, shard.upper);
  }

  /** `split_shard` at bound `at`, which goes to the first piece or to the second. */
  method SplitAt(shard: Shard, at: string, first: bool, ghost lo: nat, ghost hi: nat, ghost pos: nat, ghost g: nat)
      returns (l: Shard, r: Shard)
    requires lo < hi < Pow(g) && g > 0 && shard == Span(lo, hi, g) && lo <= pos <= hi && at == Name(pos, g)
    requires if first then pos + 1 < Pow(g) else pos > 0
    ensures l == Span(lo, if first then pos else pos - 1, g) && r == Span(if first then pos + 1 else pos, hi, g)
  {
    hide Name, Pow, Number, AllValid;
    NumberOfName(pos, g);
    var p := StrToBucket(at);
    var lowerUpper := BucketToStr(if first then p else p - 1, |shard.lower|);
    var upperLower := BucketToStr(if first then p + 1 else p, |shard.lower|);
    l, r := Shard(shard.lower, lowerUpper), Shard(upperLower, shard.upper);
  }

  /** The two pieces partition the shard. Neither is empty if and only if the bound is not the end that would be cut
      off. */
  lemma SplitPartitions(lo: nat, hi: nat, pos: nat, first: bool)
    requires lo < hi && lo <= pos <= hi && (!first ==> pos > 0)
    ensures var u, l := if first then pos else pos - 1, if first then pos + 1 else pos;
            && (forall x: nat :: In(x, lo, hi) <==> In(x, lo, u) || In(x, l, hi))
            && (forall x: nat :: !(In(x, lo, u) && In(x, l, hi)))
            && (lo <= u && l <= hi <==> if first then pos != hi else pos != lo)
  {
  }

  /** Splitting at the matching bound separates the part of `a` outside `b` from the part inside. */
  lemma MatchingSplit(al: nat, ah: nat, bl: nat, bh: nat, g: nat)
    requires al <= ah < Pow(g) && bl <= bh < Pow(g)
    ensures var status := GetOverlap(Span(al, ah, g), Span(bl, bh, g));
            && (status.OverlapStart? ==>
                  && al <= bh < ah && bh + 1 < Pow(g)
                  && (forall x: nat :: In(x, al, bh) ==> In(x, bl, bh))
                  && (forall x: nat :: In(x, bh + 1, ah) <==> In(x, al, ah) && !In(x, bl, bh)))
            && (status.OverlapEnd? ==>
                  && al < bl <= ah
                  && (forall x: nat :: In(x, bl, ah) ==> In(x, bl, bh))
                  && (forall x: nat :: In(x, al, bl - 1) <==> In(x, al, ah) && !In(x, bl, bh)))
  {
    OverlapShape(al, ah, bl, bh, g);
    hide Name, Pow, Less;
    NamesOrdered(al, bl, g);
    NamesOrdered(bh, ah, g);
  }
}
