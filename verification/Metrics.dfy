/** From usable sources to the ten metrics (`deriveMetrics`), with the laws the claims rest on. */
module Metrics {
  import opened Utf
  import opened Numbers
  import opened Canonical
  import opened Derive
  import Sorting

  // Rounding

  /** `Math.round(x * 10^dp)`: the metric is this many units of 10^-dp. */
  function Round(x: real, dp: nat): int {
    (x * Pow10(dp) as real + 0.5).Floor
  }

  function Unround(k: int, dp: nat): real { k as real / Pow10(dp) as real }

  /** Rounding moves a value by at most half a unit of the last place and keeps order. */
  lemma {:induction false} RoundNear(x: real, y: real, dp: nat)
    ensures -0.5 < Round(x, dp) as real - x * Pow10(dp) as real <= 0.5
    ensures x <= y ==> Round(x, dp) <= Round(y, dp)
  {
    var f := Pow10(dp) as real;
    if x <= y {
      assert x * f <= y * f;
    }
  }

  /** Values on the grid stay where they are, so rounding twice is rounding once. */
  lemma {:induction false} RoundOnGrid(k: int, dp: nat)
    ensures Round(Unround(k, dp), dp) == k
  {
    var f := Pow10(dp) as real;
    assert k as real / f * f == k as real;
  }

  // Median

  predicate RealLess(a: real, b: real) { a < b }

  function Middle(sorted: seq<real>): real
    requires sorted != []
  {
    var mid := |sorted| / 2;
    if |sorted| % 2 == 1 then sorted[mid] else (sorted[mid - 1] + sorted[mid]) / 2.0
  }

  function Median(values: seq<real>): real
    requires values != []
  {
    Middle(Sorting.Sort(RealLess, values))
  }

  function CountBelow(s: seq<real>, m: real): nat {
    if s == [] then 0 else (if s[0] < m then 1 else 0) + CountBelow(s[1..], m)
  }

  function CountAbove(s: seq<real>, m: real): nat {
    if s == [] then 0 else (if s[0] > m then 1 else 0) + CountAbove(s[1..], m)
  }

  lemma {:induction false} CountMultiset(s: seq<real>, m: real)
    ensures CountBelow(s, m) <= |s| && CountAbove(s, m) <= |s|
    ensures forall k :: 0 <= k <= |s| ==> CountBelow(s, m) == CountBelow(s[..k], m) + CountBelow(s[k..], m)
    ensures forall k :: 0 <= k <= |s| ==> CountAbove(s, m) == CountAbove(s[..k], m) + CountAbove(s[k..], m)
  {
    if s != [] {
      CountMultiset(s[1..], m);
      forall k | 0 <= k <= |s|
        ensures CountBelow(s, m) == CountBelow(s[..k], m) + CountBelow(s[k..], m)
        ensures CountAbove(s, m) == CountAbove(s[..k], m) + CountAbove(s[k..], m)
      {
        if k > 0 {
          assert s[..k][1..] == s[1..][..k - 1] && s[k..] == s[1..][k - 1..];
        } else {
          assert s[..0] == [] && s[0..] == s;
        }
      }
    }
  }

  lemma {:induction false} SameRest(a: multiset<real>, b: multiset<real>, x: real)
    requires multiset{x} + a == b + multiset{x}
    ensures a == b
  {
    assert (multiset{x} + a) - multiset{x} == a && (b + multiset{x}) - multiset{x} == b;
  }

  lemma {:induction false} CountPermuted(a: seq<real>, b: seq<real>, m: real)
    requires multiset(a) == multiset(b)
    ensures CountBelow(a, m) == CountBelow(b, m) && CountAbove(a, m) == CountAbove(b, m)
  {
    if a == [] {
      assert b == [] by {
        assert |multiset(b)| == |b|;
      }
    } else {
      var k, c := TakeOut(b, a[0]);
      assert a == [a[0]] + a[1..];
      SameRest(multiset(a[1..]), multiset(c), a[0]);
      CountPermuted(a[1..], c, m);
      CountTakenOut(b, k, c, m);
    }
  }

  /** `b` without one occurrence of `x`. */
  lemma {:induction false} TakeOut(b: seq<real>, x: real) returns (k: nat, c: seq<real>)
    requires x in multiset(b)
    ensures k < |b| && b[k] == x && c == b[..k] + b[k + 1..] && multiset(b) == multiset(c) + multiset{x}
  {
    k :| k < |b| && b[k] == x;
    c := b[..k] + b[k + 1..];
    assert b == b[..k] + [b[k]] + b[k + 1..];
  }

  lemma {:induction false} CountTakenOut(b: seq<real>, k: nat, c: seq<real>, m: real)
    requires k < |b| && c == b[..k] + b[k + 1..]
    ensures CountBelow(b, m) == CountBelow(c, m) + if b[k] < m then 1 else 0
    ensures CountAbove(b, m) == CountAbove(c, m) + if b[k] > m then 1 else 0
  {
    CountMultiset(b, m);
    CountMultiset(c, m);
    assert c[..k] == b[..k] && c[k..] == b[k + 1..];
    assert b[k..][1..] == b[k + 1..];
  }

  lemma {:induction false} CountSorted(s: seq<real>, m: real, lo: nat, hi: nat)
    requires lo <= |s| && hi <= |s|
    requires forall i :: lo <= i < |s| ==> s[i] >= m
    requires forall i :: 0 <= i < hi ==> s[i] <= m
    ensures CountBelow(s, m) <= lo && CountAbove(s, m) <= |s| - hi
  {
    if s != [] {
      CountSorted(s[1..], m, if lo > 0 then lo - 1 else 0, if hi > 0 then hi - 1 else 0);
    }
  }

  ghost predicate Ascending(s: seq<real>) {
    forall i, j :: 0 <= i < j < |s| ==> s[i] <= s[j]
  }

  lemma {:induction false} MiddleSplits(s: seq<real>)
    requires s != [] && Ascending(s)
    ensures 2 * CountBelow(s, Middle(s)) <= |s| && 2 * CountAbove(s, Middle(s)) <= |s|
  {
    var mid := |s| / 2;
    CountSorted(s, Middle(s), mid, if |s| % 2 == 1 then mid + 1 else mid);
  }

  lemma {:induction false} SortedAscending(values: seq<real>)
    ensures Ascending(Sorting.Sort(RealLess, values))
  {
    Sorting.SortSorted(RealLess, values);
    var s := Sorting.Sort(RealLess, values);
    forall i, j | 0 <= i < j < |s|
      ensures s[i] <= s[j]
    {
      assert !RealLess(s[j], s[i]);
    }
  }

  lemma {:induction false} SplitsPermuted(s: seq<real>, values: seq<real>)
    requires s != [] && multiset(s) == multiset(values) && |s| == |values|
    requires Ascending(s)
    ensures 2 * CountBelow(values, Middle(s)) <= |values| && 2 * CountAbove(values, Middle(s)) <= |values|
  {
    MiddleSplits(s);
    CountPermuted(s, values, Middle(s));
  }

  /** At most half of the values lie below the median and at most half above it; the order in
      which the values were collected does not matter. */
  lemma {:induction false} MedianSplits(values: seq<real>)
    requires values != []
    ensures 2 * CountBelow(values, Median(values)) <= |values|
    ensures 2 * CountAbove(values, Median(values)) <= |values|
  {
    SortedAscending(values);
    SplitsPermuted(Sorting.Sort(RealLess, values), values);
  }

  /** The median is the middle of any ascending arrangement, or the mean of its two middles. */
  lemma {:induction false} MedianExactly(values: seq<real>, s: seq<real>)
    requires values != [] && multiset(s) == multiset(values) && Ascending(s)
    ensures |s| == |values|
    ensures Median(values) ==
      if |s| % 2 == 1 then s[|s| / 2] else (s[|s| / 2 - 1] + s[|s| / 2]) / 2.0
  {
    assert |multiset(s)| == |s| && |multiset(values)| == |values|;
    SortedAscending(values);
    AscendingSame(s, Sorting.Sort(RealLess, values));
  }

  lemma {:induction false} AscendingSame(a: seq<real>, b: seq<real>)
    requires multiset(a) == multiset(b) && Ascending(a) && Ascending(b)
    ensures a == b
  {
    Sorting.SortIdempotent(RealLess, a);
    Sorting.SortIdempotent(RealLess, b);
    Sorting.SortPermutation(RealLess, a, b);
  }

  // Volumes

  /** The volumes of the first `m` keys, over the first `n` cycles. */
  function SumOver(keys: seq<Text>, m: nat, cs: seq<Cycle>, n: nat): real
    requires m <= |keys| && n <= |cs|
  {
    if m == 0 then 0.0 else SumOver(keys, m - 1, cs, n) + AssetVolume(cs, n, keys[m - 1])
  }

  ghost predicate Distinct(keys: seq<Text>) {
    forall i, j :: 0 <= i < j < |keys| ==> keys[i] != keys[j]
  }

  lemma {:induction false} SumOverStep(keys: seq<Text>, m: nat, cs: seq<Cycle>, n: nat)
    requires m <= |keys| && n < |cs| && Distinct(keys)
    ensures SumOver(keys, m, cs, n + 1)
         == SumOver(keys, m, cs, n) + if cs[n].asset in keys[..m] then cs[n].volume else 0.0
  {
    if m > 0 {
      SumOverStep(keys, m - 1, cs, n);
      assert keys[..m] == keys[..m - 1] + [keys[m - 1]];
      assert keys[m - 1] !in keys[..m - 1];
    }
  }

  lemma {:induction false} SumOverNone(keys: seq<Text>, m: nat, cs: seq<Cycle>)
    requires m <= |keys|
    ensures SumOver(keys, m, cs, 0) == 0.0
  {
    if m > 0 {
      SumOverNone(keys, m - 1, cs);
    }
  }

  /** Volumes are conserved: over any list that names every traded asset once, the per-asset
      volumes add up to the gross volume. */
  lemma {:induction false} VolumeConserved(keys: seq<Text>, cs: seq<Cycle>, n: nat)
    requires n <= |cs| && Distinct(keys) && forall i :: 0 <= i < n ==> cs[i].asset in keys
    ensures SumOver(keys, |keys|, cs, n) == Sum(Volumes(cs), n)
  {
    hide AssetVolume, SumOver;
    if n == 0 {
      SumOverNone(keys, |keys|, cs);
    } else {
      VolumeConserved(keys, cs, n - 1);
      SumOverStep(keys, |keys|, cs, n - 1);
      assert keys[..|keys|] == keys;
    }
  }

  /** The largest volume over the first `m` keys, starting from -1 as the source does. */
  function TopVolume(keys: seq<Text>, m: nat, cs: seq<Cycle>): real
    requires m <= |keys|
  {
    if m == 0 then -1.0 else Max(TopVolume(keys, m - 1, cs), AssetVolume(cs, |cs|, keys[m - 1]))
  }

  /** `gross` is at most `n` times `top`. */
  predicate AtMostTimes(gross: real, n: nat, top: real) { gross <= n as real * top }

  lemma {:induction false} TopBounds(keys: seq<Text>, m: nat, cs: seq<Cycle>)
    requires m <= |keys| && forall i :: 0 <= i < m ==> AssetVolume(cs, |cs|, keys[i]) >= 0.0
    ensures m > 0 ==> 0.0 <= TopVolume(keys, m, cs) <= SumOver(keys, m, cs, |cs|)
    ensures m > 0 ==> AtMostTimes(SumOver(keys, m, cs, |cs|), m, TopVolume(keys, m, cs))
  {
    if m > 1 {
      TopBounds(keys, m - 1, cs);
      var x, v := TopVolume(keys, m - 1, cs), AssetVolume(cs, |cs|, keys[m - 1]);
      OneMore(SumOver(keys, m - 1, cs, |cs|), m - 1, x, v);
      hide AssetVolume, AtMostTimes;
    } else if m == 1 {
      OnceBounds(keys, cs);
    }
  }

  lemma {:induction false} OnceBounds(keys: seq<Text>, cs: seq<Cycle>)
    requires |keys| >= 1 && AssetVolume(cs, |cs|, keys[0]) >= 0.0
    ensures TopVolume(keys, 1, cs) == SumOver(keys, 1, cs, |cs|) == AssetVolume(cs, |cs|, keys[0])
    ensures AtMostTimes(SumOver(keys, 1, cs, |cs|), 1, TopVolume(keys, 1, cs))
  {
    assert TopVolume(keys, 0, cs) == -1.0 && SumOver(keys, 0, cs, |cs|) == 0.0;
    hide AssetVolume;
  }

  lemma {:induction false} OneMore(gross: real, n: nat, x: real, v: real)
    requires AtMostTimes(gross, n, x)
    ensures AtMostTimes(gross + v, n + 1, Max(x, v))
  {
    var y := Max(x, v);
    assert n as real * x <= n as real * y;
  }

  lemma {:induction false} VolumeNonNegative(cs: seq<Cycle>, n: nat, k: Text)
    requires n <= |cs| && forall i :: 0 <= i < n ==> cs[i].volume >= 0.0
    ensures AssetVolume(cs, n, k) >= 0.0
  {
    if n > 0 {
      VolumeNonNegative(cs, n - 1, k);
    }
  }

  /** The traded assets in code unit order. */
  function Traded(cs: seq<Cycle>): seq<Text> {
    Sorting.Sort(KeyLess, AssetKeys(cs, |cs|))
  }

  lemma {:induction false} TradedKeys(cs: seq<Cycle>)
    ensures Distinct(Traded(cs))
    ensures forall i :: 0 <= i < |cs| ==> cs[i].asset in Traded(cs)
  {
    var keys, t := AssetKeys(cs, |cs|), Traded(cs);
    Sorting.SortElements(KeyLess, keys);
    forall i, j | 0 <= i < j < |t|
      ensures t[i] != t[j]
    {
      if t[i] == t[j] {
        Sorting.CountedTwice(t, i, j);
        Sorting.CountedOnce(keys);
      }
    }
  }

  /** The exact share of the largest asset (`topAssetShare` before rounding). */
  function TopShare(keys: seq<Text>, cs: seq<Cycle>): real
    requires Sum(Volumes(cs), |cs|) > 0.0
  {
    TopVolume(keys, |keys|, cs) / Sum(Volumes(cs), |cs|)
  }

  lemma {:induction false} TopFacts(keys: seq<Text>, cs: seq<Cycle>)
    requires Distinct(keys) && forall i :: 0 <= i < |cs| ==> cs[i].asset in keys
    requires forall i :: 0 <= i < |cs| ==> cs[i].volume >= 0.0
    requires Sum(Volumes(cs), |cs|) > 0.0
    ensures |keys| > 0 && TopVolume(keys, |keys|, cs) <= Sum(Volumes(cs), |cs|)
    ensures AtMostTimes(Sum(Volumes(cs), |cs|), |keys|, TopVolume(keys, |keys|, cs))
  {
    VolumeConserved(keys, cs, |cs|);
    var n := |keys|;
    assert n > 0;
    forall i | 0 <= i < n
      ensures AssetVolume(cs, |cs|, keys[i]) >= 0.0
    {
      VolumeNonNegative(cs, |cs|, keys[i]);
    }
    TopBounds(keys, n, cs);
  }

  /** With non-negative volumes the largest of the assets takes between an even split and
      everything; `keys` may list the traded assets in any order. */
  lemma {:induction false} TopShareBounds(keys: seq<Text>, cs: seq<Cycle>)
    requires Distinct(keys) && forall i :: 0 <= i < |cs| ==> cs[i].asset in keys
    requires forall i :: 0 <= i < |cs| ==> cs[i].volume >= 0.0
    requires Sum(Volumes(cs), |cs|) > 0.0
    ensures |keys| > 0 && 1.0 / |keys| as real <= TopShare(keys, cs) <= 1.0
  {
    TopFacts(keys, cs);
    Shares(|keys|, TopVolume(keys, |keys|, cs), Sum(Volumes(cs), |cs|));
  }

  lemma {:induction false} Shares(n: nat, top: real, gross: real)
    requires n > 0 && gross > 0.0 && top <= gross && AtMostTimes(gross, n, top)
    ensures 1.0 / n as real <= top / gross <= 1.0
  {
    var r := n as real;
    assert gross / (r * gross) == 1.0 / r;
    assert (r * top) / (r * gross) == top / gross;
  }
}
