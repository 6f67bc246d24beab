// The latency histogram as a counting form of the sorted percentile.
module Latency {
  import opened Wrappers

  const OVERFLOW_BUCKET: nat := 60001
  const WORD := 0x1_0000_0000

  datatype Failure = InvalidLatency | InvalidQuantile

  function BucketOf(value: real): (b: nat)
    requires value >= 0.0
    ensures b <= OVERFLOW_BUCKET
  {
    if value.Floor > OVERFLOW_BUCKET then OVERFLOW_BUCKET else value.Floor
  }

  // A value's bucket is its whole part, up to the bucket everything from there on shares.
  lemma BucketExactly(value: real)
    requires value >= 0.0
    ensures value >= 60001.0 ==> BucketOf(value) == 60001
    ensures value < 60001.0 ==> BucketOf(value) as real <= value < BucketOf(value) as real + 1.0
  {
  }

  predicate Latencies(values: seq<real>) {
    forall i :: 0 <= i < |values| ==> values[i] >= 0.0
  }

  function Ceil(x: real): int {
    -((-x).Floor)
  }

  // ---- The reference: sort and index ----

  function Insert(x: real, s: seq<real>): seq<real> {
    if s == [] || x <= s[0] then [x] + s else [s[0]] + Insert(x, s[1..])
  }

  function Sorted(s: seq<real>): seq<real> {
    if s == [] then [] else Insert(s[0], Sorted(s[1..]))
  }

  lemma ScaleBounds(n: real, quantile: real)
    requires n >= 0.0 && 0.0 <= quantile <= 1.0
    ensures 0.0 <= n * quantile <= n
  {
    assert n * quantile + n * (1.0 - quantile) == n;
    assert n * (1.0 - quantile) >= 0.0;
  }

  // The one-based rank a quantile asks for.
  function Rank(n: nat, quantile: real): (r: int)
    requires n > 0 && 0.0 <= quantile <= 1.0
    ensures 1 <= r <= n
  {
    var c := Ceil(n as real * quantile);
    ScaleBounds(n as real, quantile);
    if c < 1 then 1 else c
  }

  function Percentile(values: seq<real>, quantile: real): (r: real)
    requires 0.0 <= quantile <= 1.0
  {
    if values == [] then 0.0
    else
      SortedPermutes(values);
      Sorted(values)[Rank(|values|, quantile) - 1]
  }

  predicate Ascending(s: seq<real>) {
    forall i, j :: 0 <= i < j < |s| ==> s[i] <= s[j]
  }

  lemma {:induction false} InsertPermutes(x: real, s: seq<real>)
    ensures multiset(Insert(x, s)) == multiset(s) + multiset{x} && |Insert(x, s)| == |s| + 1
  {
    if s != [] && x > s[0] {
      InsertPermutes(x, s[1..]);
      assert s == [s[0]] + s[1..];
    }
  }

  lemma {:induction false} InsertKeepsOrder(x: real, s: seq<real>)
    requires Ascending(s)
    ensures Ascending(Insert(x, s))
    ensures s != [] ==> Insert(x, s)[0] == if x < s[0] then x else s[0]
  {
    if s != [] && x > s[0] {
      var r := Insert(x, s[1..]);
      InsertKeepsOrder(x, s[1..]);
      assert s[0] <= r[0];
      assert forall j :: 0 < j < |r| ==> r[0] <= r[j];
    }
  }

  lemma {:induction false} SortedPermutes(s: seq<real>)
    ensures multiset(Sorted(s)) == multiset(s) && |Sorted(s)| == |s| && Ascending(Sorted(s))
  {
    if s != [] {
      SortedPermutes(s[1..]);
      InsertPermutes(s[0], Sorted(s[1..]));
      InsertKeepsOrder(s[0], Sorted(s[1..]));
      assert s == [s[0]] + s[1..];
    }
  }

  // The rank covers the quantile's share, and no smaller one does.
  lemma RankExactly(n: nat, quantile: real)
    requires n > 0 && 0.0 <= quantile <= 1.0
    ensures var r := Rank(n, quantile); r as real >= n as real * quantile && (r == 1 || (r - 1) as real < n as real * quantile)
  {
  }

  // How many values are no greater than x, or less than it.
  function AtMost(values: seq<real>, x: real): nat {
    if values == [] then 0 else AtMost(values[..|values| - 1], x) + if values[|values| - 1] <= x then 1 else 0
  }

  function Below(values: seq<real>, x: real): nat {
    if values == [] then 0 else Below(values[..|values| - 1], x) + if values[|values| - 1] < x then 1 else 0
  }

  lemma {:induction false} CountsConcat(s: seq<real>, t: seq<real>, x: real)
    ensures AtMost(s + t, x) == AtMost(s, x) + AtMost(t, x) && Below(s + t, x) == Below(s, x) + Below(t, x)
  {
    if t == [] {
      assert s + t == s;
    } else {
      assert (s + t)[..|s + t| - 1] == s + t[..|t| - 1];
      CountsConcat(s, t[..|t| - 1], x);
    }
  }

  lemma CountsOfOne(y: real, x: real)
    ensures AtMost([y], x) == (if y <= x then 1 else 0) && Below([y], x) == if y < x then 1 else 0
  {
    assert [y][..0] == [];
  }

  lemma {:induction false} InsertCounts(y: real, s: seq<real>, x: real)
    ensures AtMost(Insert(y, s), x) == AtMost(s, x) + if y <= x then 1 else 0
    ensures Below(Insert(y, s), x) == Below(s, x) + if y < x then 1 else 0
  {
    hide AtMost, Below;
    CountsOfOne(y, x);
    CountsConcat([y], s, x);
    if s != [] && y > s[0] {
      CountsConcat([s[0]], s[1..], x);
      assert s == [s[0]] + s[1..];
      InsertCounts(y, s[1..], x);
      CountsConcat([s[0]], Insert(y, s[1..]), x);
    }
  }

  lemma {:induction false} SortedCounts(s: seq<real>, x: real)
    ensures AtMost(Sorted(s), x) == AtMost(s, x) && Below(Sorted(s), x) == Below(s, x)
  {
    hide AtMost, Below;
    if s != [] {
      SortedCounts(s[1..], x);
      InsertCounts(s[0], Sorted(s[1..]), x);
      CountsOfOne(s[0], x);
      CountsConcat([s[0]], s[1..], x);
      assert s == [s[0]] + s[1..];
    }
  }

  lemma {:induction false} AscendingCounts(s: seq<real>, k: nat)
    requires Ascending(s) && k < |s|
    ensures AtMost(s, s[k]) >= k + 1 && Below(s, s[k]) <= k
    decreases |s|
  {
    var n := |s| - 1;
    if k < n {
      AscendingCounts(s[..n], k);
    } else if k > 0 {
      AscendingCounts(s[..n], k - 1);
      AtMostGrows(s[..n], s[k - 1], s[k]);
      BelowIsFew(s[..n], s[k]);
    }
  }

  lemma {:induction false} AtMostGrows(s: seq<real>, x: real, y: real)
    requires x <= y
    ensures AtMost(s, x) <= AtMost(s, y)
  {
    if s != [] { AtMostGrows(s[..|s| - 1], x, y); }
  }

  lemma {:induction false} BelowIsFew(s: seq<real>, x: real)
    ensures Below(s, x) <= |s|
  {
    if s != [] { BelowIsFew(s[..|s| - 1], x); }
  }

  // The percentile in terms of counts alone: it is one of the values, at least the quantile's share of them is no
  // greater, and less than that share is smaller.
  lemma PercentileExactly(values: seq<real>, quantile: real)
    requires values != [] && 0.0 <= quantile <= 1.0
    ensures var p := Percentile(values, quantile); var share := |values| as real * quantile;
      && p in values && AtMost(values, p) as real >= share
      && (Below(values, p) == 0 || Below(values, p) as real < share)
  {
    hide Sorted, AtMost, Below;
    var s, r := Sorted(values), Rank(|values|, quantile);
    SortedPermutes(values);
    RankExactly(|values|, quantile);
    var p := s[r - 1];
    assert p in multiset(s);
    AscendingCounts(s, r - 1);
    SortedCounts(values, p);
  }

  // ---- Counting ----

  // How many values fall in buckets up to b.
  function UpTo(values: seq<real>, b: int): nat
    requires Latencies(values)
  {
    if values == [] then 0
    else UpTo(values[..|values| - 1], b) + if BucketOf(values[|values| - 1]) <= b then 1 else 0
  }

  function InBucket(values: seq<real>, b: nat): nat
    requires Latencies(values)
  {
    UpToMonotone(values, b);
    UpTo(values, b) - UpTo(values, b - 1)
  }

  lemma {:induction false} UpToMonotone(values: seq<real>, b: int)
    requires Latencies(values)
    ensures UpTo(values, b - 1) <= UpTo(values, b) <= |values|
    ensures b < 0 ==> UpTo(values, b) == 0
    ensures b >= OVERFLOW_BUCKET ==> UpTo(values, b) == |values|
  {
    if values != [] { UpToMonotone(values[..|values| - 1], b); }
  }

  lemma {:induction false} UpToConcat(s: seq<real>, t: seq<real>, b: int)
    requires Latencies(s) && Latencies(t)
    ensures Latencies(s + t) && UpTo(s + t, b) == UpTo(s, b) + UpTo(t, b)
  {
    if t == [] {
      assert s + t == s;
    } else {
      assert (s + t)[..|s + t| - 1] == s + t[..|t| - 1];
      UpToConcat(s, t[..|t| - 1], b);
    }
  }

  // Counting does not depend on order.
  lemma {:induction false} UpToPermutes(s: seq<real>, t: seq<real>, b: int)
    requires Latencies(s) && Latencies(t) && multiset(s) == multiset(t)
    ensures UpTo(s, b) == UpTo(t, b)
    decreases |s|
  {
    if s == [] {
      assert |multiset(t)| == 0;
    } else {
      var x := s[|s| - 1];
      var front := s[..|s| - 1];
      assert s == front + [x];
      assert x in multiset(t);
      var k :| 0 <= k < |t| && t[k] == x;
      RemoveOne(t, k, b);
      UpToPermutes(front, t[..k] + t[k + 1..], b);
    }
  }

  lemma RemoveOne(t: seq<real>, k: nat, b: int)
    requires Latencies(t) && k < |t|
    ensures var rest := t[..k] + t[k + 1..];
      Latencies(rest) && multiset(rest) == multiset(t) - multiset{t[k]} && UpTo(t, b) == UpTo(rest, b) + if BucketOf(t[k]) <= b then 1 else 0
  {
    assert t == t[..k] + [t[k]] + t[k + 1..];
    assert t[..k + 1] == t[..k] + [t[k]];
    UpToConcat(t[..k], t[k + 1..], b);
    UpToConcat(t[..k + 1], t[k + 1..], b);
    assert t == t[..k + 1] + t[k + 1..];
    assert t[..k + 1][..k] == t[..k];
  }

  lemma BucketMonotone(x: real, y: real)
    requires 0.0 <= x <= y
    ensures BucketOf(x) <= BucketOf(y)
  {
  }

  // In a sorted list the k-th value's bucket is reached exactly when at least k values are.
  lemma {:induction false} RankAndCount(s: seq<real>, k: nat, b: int)
    requires Latencies(s) && Ascending(s) && 1 <= k <= |s|
    ensures UpTo(s, b) >= k <==> BucketOf(s[k - 1]) <= b
    decreases |s|
  {
    var n := |s| - 1;
    if k == |s| {
      UpToMonotone(s[..n], b);
      if BucketOf(s[n]) <= b && n > 0 {
        BucketMonotone(s[n - 1], s[n]);
        RankAndCount(s[..n], n, b);
      }
    } else {
      RankAndCount(s[..n], k, b);
      BucketMonotone(s[k - 1], s[n]);
    }
  }

  // The first bucket where the running count reaches the rank is the percentile's own bucket.
  lemma FirstBucketIsPercentile(values: seq<real>, quantile: real, b: nat)
    requires Latencies(values) && values != [] && 0.0 <= quantile <= 1.0
    requires UpTo(values, b) >= Rank(|values|, quantile) && UpTo(values, b - 1) < Rank(|values|, quantile)
    ensures Percentile(values, quantile) >= 0.0 && b == BucketOf(Percentile(values, quantile))
  {
    var s := Sorted(values);
    SortedPermutes(values);
    forall i | 0 <= i < |s| ensures s[i] >= 0.0 {
      assert s[i] in multiset(s);
      assert s[i] in values;
    }
    var k := Rank(|values|, quantile);
    UpToPermutes(values, s, b);
    UpToPermutes(values, s, b - 1);
    RankAndCount(s, k, b);
    RankAndCount(s, k, b - 1);
  }

  class LatencyHistogram {
    const buckets: array<nat>
    var count: nat
    ghost var observed: seq<real>

    ghost predicate Valid()
      reads this, buckets
    {
      && buckets.Length == OVERFLOW_BUCKET + 1 && Latencies(observed) && count == |observed|
      && forall b :: 0 <= b < buckets.Length ==> buckets[b] == InBucket(observed, b) % WORD
    }

    constructor ()
      ensures Valid() && observed == [] && fresh(buckets)
    {
      buckets := new nat[OVERFLOW_BUCKET + 1](i => 0);
      count, observed := 0, [];
    }

    method Observe(value: real) returns (r: Result<(), Failure>)
      requires Valid()
      modifies this, buckets
      ensures Valid()
      ensures r.Ok? <==> value >= 0.0
      ensures observed == if r.Ok? then old(observed) + [value] else old(observed)
    {
      if value < 0.0 { return Err(InvalidLatency); }
      var bucket := BucketOf(value);
      var was := observed;
      observed := observed + [value];
      assert observed[..|was|] == was;
      forall b | 0 <= b <= OVERFLOW_BUCKET
        ensures InBucket(observed, b) == InBucket(was, b) + if b == bucket then 1 else 0
      {
      }
      buckets[bucket] := (buckets[bucket] + 1) % WORD;
      count := count + 1;
      return Ok(());
    }

    // Stops at the first invalid value, keeping those before it.
    method Merge(values: seq<real>) returns (r: Result<(), Failure>)
      requires Valid()
      modifies this, buckets
      ensures Valid()
      ensures r.Ok? <==> Latencies(values)
      ensures r.Ok? ==> observed == old(observed) + values
      ensures r.Err? ==> exists n :: 0 <= n < |values| && Latencies(values[..n]) && values[n] < 0.0 && observed == old(observed) + values[..n]
    {
      assert old(observed) + [] == old(observed);
      for i := 0 to |values|
        invariant Valid() && Latencies(values[..i]) && observed == old(observed) + values[..i]
      {
        var one := Observe(values[i]);
        if one.Err? { return Err(one.error); }
        assert values[..i + 1] == values[..i] + [values[i]];
      }
      assert values[..|values|] == values;
      return Ok(());
    }

    // While no bucket has counted past its 32 bits, this is the bucket of the sorted percentile.
    method PercentileBucket(quantile: real) returns (r: Result<nat, Failure>)
      requires Valid()
      ensures r.Ok? <==> 0.0 <= quantile <= 1.0
      ensures r.Ok? && observed == [] ==> r.value == 0
      ensures r.Ok? && observed != [] && (forall b: nat :: b <= OVERFLOW_BUCKET ==> InBucket(observed, b) < WORD) ==>
        Percentile(observed, quantile) >= 0.0 && r.value == BucketOf(Percentile(observed, quantile))
    {
      if quantile < 0.0 || quantile > 1.0 { return Err(InvalidQuantile); }
      if count == 0 { return Ok(0); }
      var target := Rank(count, quantile);
      var cumulative := 0;
      ghost var small := forall b: nat :: b <= OVERFLOW_BUCKET ==> InBucket(observed, b) < WORD;
      UpToMonotone(observed, -1);
      for bucket := 0 to buckets.Length
        invariant small ==> cumulative == UpTo(observed, bucket - 1)
        invariant cumulative < target
      {
        UpToMonotone(observed, bucket);
        cumulative := cumulative + buckets[bucket];
        if cumulative >= target {
          if small { FirstBucketIsPercentile(observed, quantile, bucket); }
          return Ok(bucket);
        }
      }
      UpToMonotone(observed, OVERFLOW_BUCKET);
      return Ok(OVERFLOW_BUCKET);
    }
  }
}
