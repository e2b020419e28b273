/** The activity clock read off trade times (`inferClock` in cli/src/core/exposure.ts). */
module Clock {
  import opened Utf
  import Lists
  import Sorting

  const HOURS := 24
  const NIGHT := 8

  /** The last instant a JavaScript date can hold. */
  const MAX_DATE := 8_640_000_000_000_000

  /** `new Date(t).getUTCHours()`; `None` is not a number. */
  function HourOf(t: int): (h: Option<nat>)
    requires t > 0
    ensures h.Some? ==> h.value < 24
  {
    if t <= MAX_DATE then Some(t / 3_600_000 % 24) else None
  }

  /** The finite positive times; `None` stands for the numbers that are not finite. */
  function Usable(ts: seq<Option<int>>, n: nat): (r: seq<int>)
    requires n <= |ts|
    ensures |r| <= n && forall i :: 0 <= i < |r| ==> r[i] > 0
  {
    if n == 0 then []
    else if ts[n - 1].Some? && ts[n - 1].value > 0 then Usable(ts, n - 1) + [ts[n - 1].value]
    else Usable(ts, n - 1)
  }

  /** The usable times are the finite ones after the epoch, each as often as it was given. */
  lemma {:induction false} UsableExactly(ts: seq<Option<int>>, n: nat)
    requires n <= |ts|
    ensures forall u :: u in Usable(ts, n) <==> u > 0 && Some(u) in ts[..n]
    ensures |Usable(ts, n)| == |Lists.Where((t: Option<int>) => t.Some? && 0 < t.value, ts[..n])|
  {
    if n > 0 {
      UsableExactly(ts, n - 1);
      assert ts[..n] == ts[..n - 1] + [ts[n - 1]];
      Lists.WhereStep((t: Option<int>) => t.Some? && 0 < t.value, ts, n - 1);
    }
  }

  predicate Positive(us: seq<int>) { forall i :: 0 <= i < |us| ==> us[i] > 0 }

  /** How many of the first `n` times fall in hour `h`. */
  function Count(us: seq<int>, n: nat, h: nat): (c: nat)
    requires n <= |us| && Positive(us)
    ensures c <= n
  {
    if n == 0 then 0 else Count(us, n - 1, h) + if HourOf(us[n - 1]) == Some(h) then 1 else 0
  }

  function Histogram(us: seq<int>): (r: seq<nat>)
    requires Positive(us)
    ensures |r| == 24 && forall h :: 0 <= h < 24 ==> r[h] == Count(us, |us|, h)
  {
    seq(24, h requires 0 <= h < 24 => Count(us, |us|, h))
  }

  /** `n` cells of the histogram from `start` on, around the clock. */
  function Arc(h: seq<nat>, start: nat, n: nat): nat
    requires |h| == 24
  {
    if n == 0 then 0 else Arc(h, start, n - 1) + h[(start + n - 1) % 24]
  }

  /** The earliest start of a quietest night. */
  ghost predicate IsQuietest(h: seq<nat>, q: nat)
    requires |h| == 24
  {
    && q < 24
    && (forall s :: 0 <= s < 24 ==> Arc(h, q, 8) <= Arc(h, s, 8))
    && forall s :: 0 <= s < q ==> Arc(h, q, 8) < Arc(h, s, 8)
  }

  ghost predicate IsBusiest(h: seq<nat>, total: nat)
    requires |h| == 24
  {
    && (forall s :: 0 <= s < 24 ==> Arc(h, s, 8) <= total)
    && exists s :: 0 <= s < 24 && Arc(h, s, 8) == total
  }

  datatype Confidence = Weak | Moderate | Strong

  datatype Fingerprint = Fingerprint(
    samples: nat, histogram: seq<nat>, busiestHours: seq<nat>, quietStart: nat, offset: int,
    concentration: real, confidence: Confidence)

  /** The remainder of JavaScript, with the sign of the dividend. */
  function Rem(a: int, b: int): int
    requires b > 0
  {
    if a >= 0 then a % b else -(-a % b)
  }

  function ImpliedOffset(quietStart: int): int {
    var raw := Rem(Rem(0 - quietStart, 24) + 24, 24);
    if raw > 12 then raw - 24 else raw
  }

  function ConfidenceOf(samples: nat, concentration: real): Confidence {
    if samples >= 40 && concentration >= 0.7 then Strong
    else if samples >= 15 && concentration >= 0.55 then Moderate
    else Weak
  }

  // The ranking of hours

  datatype Cell = Cell(value: nat, hour: nat)

  predicate MoreActive(a: Cell, b: Cell) { a.value > b.value || (a.value == b.value && a.hour < b.hour) }

  function Cells(h: seq<nat>): (r: seq<Cell>)
    ensures |r| == |h| && forall i :: 0 <= i < |h| ==> r[i] == Cell(h[i], i)
  {
    seq(|h|, i requires 0 <= i < |h| => Cell(h[i], i))
  }

  function Active(cs: seq<Cell>): (r: seq<Cell>)
    ensures forall c :: c in r <==> c in cs && c.value > 0
  {
    if cs == [] then []
    else if cs[0].value > 0 then [cs[0]] + Active(cs[1..])
    else Active(cs[1..])
  }

  function Ranked(h: seq<nat>): seq<Cell> { Active(Sorting.Sort(MoreActive, Cells(h))) }

  /** The hours of the three most active cells. */
  function Busiest(h: seq<nat>): (r: seq<nat>)
    ensures |r| <= 3
  {
    var n := if |Ranked(h)| <= 3 then |Ranked(h)| else 3;
    seq(n, i requires 0 <= i < n => Ranked(h)[i].hour)
  }

  method CountHours(us: seq<int>) returns (histogram: array<nat>)
    requires Positive(us)
    ensures fresh(histogram) && histogram.Length == 24 && histogram[..] == Histogram(us)
  {
    histogram := new nat[24](_ => 0);
    for i := 0 to |us|
      invariant forall h :: 0 <= h < 24 ==> histogram[h] == Count(us, i, h)
    {
      var hour := HourOf(us[i]);
      if hour.Some? {
        histogram[hour.value] := histogram[hour.value] + 1;
      }
    }
  }

  method WindowTotal(h: seq<nat>, start: nat) returns (total: nat)
    requires |h| == 24
    ensures total == Arc(h, start, NIGHT)
  {
    total := 0;
    for k := 0 to 8
      invariant total == Arc(h, start, k)
    {
      total := total + h[(start + k) % 24];
    }
  }

  method FindQuietest(h: seq<nat>) returns (quietStart: nat)
    requires |h| == 24
    ensures IsQuietest(h, quietStart)
  {
    hide Arc;
    quietStart := 0;
    var best := -1;
    for start := 0 to 24
      invariant start == 0 ==> best == -1 && quietStart == 0
      invariant start > 0 ==> quietStart < start && best == Arc(h, quietStart, NIGHT)
      invariant forall s :: 0 <= s < start ==> best <= Arc(h, s, NIGHT)
      invariant forall s :: 0 <= s < quietStart ==> best < Arc(h, s, NIGHT)
    {
      var total := WindowTotal(h, start);
      if best == -1 || total < best {
        best := total;
        quietStart := start;
      }
    }
  }

  method FindBusiest(h: seq<nat>) returns (busyBest: nat)
    requires |h| == 24
    ensures IsBusiest(h, busyBest)
  {
    hide Arc;
    busyBest := 0;
    ghost var at: nat := 0;
    for start := 0 to 24
      invariant start == 0 ==> busyBest == 0
      invariant forall s :: 0 <= s < start ==> Arc(h, s, NIGHT) <= busyBest
      invariant start > 0 ==> at < start && (busyBest == Arc(h, at, NIGHT) || busyBest == 0)
    {
      var total := WindowTotal(h, start);
      if total > busyBest {
        busyBest := total;
        at := start;
      } else if start == 0 {
        at := 0;
      }
    }
    assert Arc(h, 0, NIGHT) <= busyBest && Arc(h, at, NIGHT) <= busyBest;
  }

  /** What a fingerprint of the usable times `us` states. */
  ghost predicate Describes(f: Fingerprint, us: seq<int>) {
    && Positive(us) && us != []
    && f.samples == |us| && f.histogram == Histogram(us)
    && f.busiestHours == Busiest(f.histogram)
    && IsQuietest(f.histogram, f.quietStart)
    && f.offset == ImpliedOffset(f.quietStart)
    && (exists busy: nat :: IsBusiest(f.histogram, busy) && f.concentration == busy as real / |us| as real)
    && f.confidence == ConfidenceOf(f.samples, f.concentration)
  }

  method InferClock(ts: seq<Option<int>>) returns (f: Option<Fingerprint>)
    ensures f.None? <==> Usable(ts, |ts|) == []
    ensures f.Some? ==> Describes(f.value, Usable(ts, |ts|))
  {
    var us: seq<int> := [];
    for i := 0 to |ts|
      invariant us == Usable(ts, i)
    {
      if ts[i].Some? && ts[i].value > 0 {
        us := us + [ts[i].value];
      }
    }
    if us == [] {
      return None;
    }
    var cells := CountHours(us);
    var h := cells[..];
    var quietStart := FindQuietest(h);
    var busyBest := FindBusiest(h);
    var concentration := busyBest as real / |us| as real;
    f := Some(Fingerprint(|us|, h, Busiest(h), quietStart, ImpliedOffset(quietStart), concentration,
                          ConfidenceOf(|us|, concentration)));
  }

  // Every window counted

  /** All nights of the first `n` starts together, `k` hours of each. */
  function Grid(h: seq<nat>, n: nat, k: nat): nat
    requires |h| == 24
  {
    if n == 0 then 0 else Grid(h, n - 1, k) + Arc(h, n - 1, k)
  }

  lemma {:induction false} ArcShift(h: seq<nat>, start: nat, n: nat)
    requires |h| == 24
    ensures Arc(h, start + 1, n) + h[start % 24] == Arc(h, start, n) + h[(start + n) % 24]
  {
    if n > 0 {
      ArcShift(h, start, n - 1);
    }
  }

  /** Around the whole clock it does not matter where one starts. */
  lemma {:induction false} FullCircle(h: seq<nat>, start: nat)
    requires |h| == 24
    ensures Arc(h, start, HOURS) == Arc(h, 0, HOURS)
  {
    hide Arc;
    if start > 0 {
      FullCircle(h, start - 1);
      ArcShift(h, start - 1, HOURS);
    }
  }

  lemma {:induction false} GridColumn(h: seq<nat>, n: nat, k: nat)
    requires |h| == 24
    ensures Grid(h, n, k + 1) == Grid(h, n, k) + Arc(h, k, n)
  {
    if n > 0 {
      GridColumn(h, n - 1, k);
      assert (n - 1 + (k + 1) - 1) % 24 == (k + n - 1) % 24;
    }
  }

  lemma {:induction false} GridEmpty(h: seq<nat>, n: nat)
    requires |h| == 24
    ensures Grid(h, n, 0) == 0
  {
    if n > 0 {
      GridEmpty(h, n - 1);
    }
  }

  /** The 24 windows of `k` hours together count every sample `k` times. */
  lemma {:induction false} WindowsCountEachHour(h: seq<nat>, k: nat)
    requires |h| == 24
    ensures Grid(h, HOURS, k) == k * Arc(h, 0, HOURS)
  {
    hide Arc, Grid;
    if k == 0 {
      GridEmpty(h, HOURS);
    } else {
      WindowsCountEachHour(h, k - 1);
      GridColumn(h, HOURS, k - 1);
      FullCircle(h, k - 1);
    }
  }

  lemma {:induction false} GridAtLeast(h: seq<nat>, n: nat, low: nat)
    requires |h| == 24 && forall s :: 0 <= s < n ==> low <= Arc(h, s, NIGHT)
    ensures n * low <= Grid(h, n, NIGHT)
  {
    hide Arc;
    if n > 0 {
      GridAtLeast(h, n - 1, low);
    }
  }

  lemma {:induction false} GridAtMost(h: seq<nat>, n: nat, high: nat)
    requires |h| == 24 && forall s :: 0 <= s < n ==> Arc(h, s, NIGHT) <= high
    ensures Grid(h, n, NIGHT) <= n * high
  {
    hide Arc;
    if n > 0 {
      GridAtMost(h, n - 1, high);
    }
  }

  lemma {:induction false} ArcGrows(h: seq<nat>, start: nat, m: nat, n: nat)
    requires |h| == 24 && m <= n
    ensures Arc(h, start, m) <= Arc(h, start, n)
  {
    if m < n {
      ArcGrows(h, start, m, n - 1);
    }
  }

  // The histogram counts the samples

  /** The usable times within the range of dates. */
  function InRange(us: seq<int>, n: nat): (c: nat)
    requires n <= |us|
    ensures c <= n
  {
    if n == 0 then 0 else InRange(us, n - 1) + if us[n - 1] <= MAX_DATE then 1 else 0
  }

  function CountUpTo(us: seq<int>, n: nat, hours: nat): nat
    requires n <= |us| && Positive(us)
  {
    if hours == 0 then 0 else CountUpTo(us, n, hours - 1) + Count(us, n, hours - 1)
  }

  lemma {:induction false} CountStep(us: seq<int>, n: nat, hours: nat)
    requires 0 < n <= |us| && Positive(us)
    ensures CountUpTo(us, n, hours)
         == CountUpTo(us, n - 1, hours)
            + if HourOf(us[n - 1]).Some? && HourOf(us[n - 1]).value < hours then 1 else 0
  {
    hide HourOf;
    if hours > 0 {
      CountStep(us, n, hours - 1);
    }
  }

  lemma {:induction false} CountNone(us: seq<int>, hours: nat)
    requires Positive(us)
    ensures CountUpTo(us, 0, hours) == 0
  {
    if hours > 0 {
      CountNone(us, hours - 1);
    }
  }

  lemma {:induction false} HoursCountSamples(us: seq<int>, n: nat)
    requires n <= |us| && Positive(us)
    ensures CountUpTo(us, n, HOURS) == InRange(us, n)
  {
    hide CountUpTo, Count;
    if n == 0 {
      CountNone(us, HOURS);
    } else {
      HoursCountSamples(us, n - 1);
      CountStep(us, n, HOURS);
    }
  }

  lemma {:induction false} ArcCounts(us: seq<int>, n: nat)
    requires Positive(us) && n <= 24
    ensures Arc(Histogram(us), 0, n) == CountUpTo(us, |us|, n)
  {
    hide Count;
    if n > 0 {
      ArcCounts(us, n - 1);
      assert (0 + n - 1) % 24 == n - 1;
    }
  }

  /** The histogram holds exactly the usable times a date can hold. */
  lemma {:induction false} HistogramTotal(us: seq<int>)
    requires Positive(us)
    ensures Arc(Histogram(us), 0, HOURS) == InRange(us, |us|)
  {
    hide Arc, CountUpTo, InRange;
    ArcCounts(us, HOURS);
    HoursCountSamples(us, |us|);
  }

  lemma {:induction false} AllInRange(us: seq<int>, n: nat)
    requires n <= |us|
    ensures InRange(us, n) == n <==> forall i :: 0 <= i < n ==> us[i] <= MAX_DATE
  {
    if n > 0 {
      AllInRange(us, n - 1);
    }
  }

  /** The averaging bound: of `m` samples in range the quietest night holds at most a third and the
      busiest window at least a third, and no more than all. */
  lemma {:induction false} AveragingBound(us: seq<int>, quietStart: nat, busy: nat)
    requires Positive(us) && IsQuietest(Histogram(us), quietStart) && IsBusiest(Histogram(us), busy)
    ensures 3 * Arc(Histogram(us), quietStart, NIGHT) <= InRange(us, |us|) <= 3 * busy
    ensures busy <= InRange(us, |us|)
  {
    hide Arc, Grid, Histogram;
    var h := Histogram(us);
    HistogramTotal(us);
    WindowsCountEachHour(h, NIGHT);
    GridAtLeast(h, HOURS, Arc(h, quietStart, NIGHT));
    GridAtMost(h, HOURS, busy);
    var s :| 0 <= s < 24 && Arc(h, s, NIGHT) == busy;
    ArcGrows(h, s, NIGHT, HOURS);
    FullCircle(h, s);
  }

  /** A fingerprint of times that dates can hold: the histogram counts all samples, the quietest
      night holds at most a third of them, and the concentration lies between a third and one. */
  lemma {:induction false} FingerprintBounds(f: Fingerprint, us: seq<int>)
    requires Describes(f, us) && forall i :: 0 <= i < |us| ==> us[i] <= 8_640_000_000_000_000
    ensures Arc(f.histogram, 0, HOURS) == f.samples
    ensures 3 * Arc(f.histogram, f.quietStart, NIGHT) <= f.samples
    ensures 1.0 / 3.0 <= f.concentration <= 1.0
  {
    hide Arc, Histogram, Busiest;
    var busy: nat :| IsBusiest(f.histogram, busy) && f.concentration == busy as real / |us| as real;
    AllInRange(us, |us|);
    HistogramTotal(us);
    AveragingBound(us, f.quietStart, busy);
    ShareBounds(busy as real, |us| as real);
  }

  lemma {:induction false} ShareBounds(part: real, whole: real)
    requires 0.0 < whole <= 3.0 * part && part <= whole
    ensures 1.0 / 3.0 <= part / whole <= 1.0
  {
    var share := part / whole;
    assert share * whole == part;
    if share < 1.0 / 3.0 {
      LessTimes(share, 1.0 / 3.0, whole);
    }
    if share > 1.0 {
      LessTimes(1.0, share, whole);
    }
  }

  lemma {:induction false} LessTimes(a: real, b: real, w: real)
    requires a < b && 0.0 < w
    ensures a * w < b * w
  {
  }

  /** A time past the range of dates is counted as a sample but falls in no hour, and the
      concentration can then drop below a third. */
  lemma {:induction false} BeyondDatesUncounted(t: int, f: Fingerprint)
    requires t > 8_640_000_000_000_000 && Describes(f, [t])
    ensures f.samples == 1 && Arc(f.histogram, 0, HOURS) == 0 && f.concentration == 0.0
  {
    hide Arc, Histogram, Busiest;
    var busy: nat :| IsBusiest(f.histogram, busy) && f.concentration == busy as real / 1.0;
    assert InRange([t], 1) == 0 by {
      assert InRange([t], 0) == 0;
    }
    HistogramTotal([t]);
    AveragingBound([t], f.quietStart, busy);
  }

  /** A time zone in which `quietStart`, in UTC, is midnight. */
  predicate Midnight(quietStart: nat, offset: int) {
    -11 <= offset <= 12 && (quietStart + offset) % 24 == 0
  }

  /** The implied offset is the one time zone between -11 and +12 that puts the start of the quiet
      night at midnight. */
  lemma {:induction false} OffsetPutsNightAtMidnight(quietStart: nat)
    requires quietStart < 24
    ensures forall o :: Midnight(quietStart, o) <==> o == ImpliedOffset(quietStart)
  {
  }

  // The busiest hours

  lemma {:induction false} ActiveSorted(cs: seq<Cell>)
    requires Sorting.Sorted(MoreActive, cs)
    ensures Sorting.Sorted(MoreActive, Active(cs))
    decreases |cs|
  {
    if cs != [] {
      ActiveSorted(cs[1..]);
      var r := Active(cs[1..]);
      forall j | 0 <= j < |r|
        ensures !MoreActive(r[j], cs[0])
      {
        assert r[j] in cs[1..];
        var k :| 0 <= k < |cs| - 1 && cs[1..][k] == r[j];
        assert cs[k + 1] == r[j];
      }
    }
  }

  /** Up to three hours, most active first: an hour with activity is left out only when three others
      are listed that are more active, or as active and earlier in the day. */
  lemma {:induction false} BusiestAreMostActive(h: seq<nat>, x: nat)
    requires x < |h| && h[x] > 0 && x !in Busiest(h)
    ensures |Busiest(h)| == 3
    ensures forall y :: y in Busiest(h) ==> y < |h| && MoreActive(Cell(h[y], y), Cell(h[x], x))
  {
    hide MoreActive, Sorting.Sort;
    var cells := Cells(h);
    var sorted := Sorting.Sort(MoreActive, cells);
    ActivityOrder();
    Sorting.SortSorted(MoreActive, cells);
    Sorting.SortElements(MoreActive, cells);
    ActiveSorted(sorted);
    var r := Ranked(h);
    assert Cells(h)[x] == Cell(h[x], x);
    assert Cell(h[x], x) in r;
    var k :| 0 <= k < |r| && r[k] == Cell(h[x], x);
    assert forall i :: 0 <= i < |Busiest(h)| ==> Busiest(h)[i] == r[i].hour;
    forall y | y in Busiest(h)
      ensures y < |h| && MoreActive(Cell(h[y], y), Cell(h[x], x))
    {
      var i :| 0 <= i < 3 && Busiest(h)[i] == y;
      assert r[i] in r && r[i] in cells;
      assert r[i] == Cell(h[y], y);
      hide Sorting.Sort, Cells, Busiest, Ranked;
      assert !MoreActive(r[k], r[i]);
      Comparable(r[i], r[k]);
    }
  }

  lemma {:induction false} ActivityOrder()
    ensures Sorting.StrictOrder(MoreActive)
  {
  }

  lemma {:induction false} Comparable(a: Cell, b: Cell)
    requires a.hour != b.hour && !MoreActive(b, a)
    ensures MoreActive(a, b)
  {
  }

  /** The hour of day, counting whole days and whole hours. */
  lemma {:induction false} HourExactly(t: int, day: nat, hour: nat, rest: nat)
    requires 0 < t <= 8_640_000_000_000_000 && hour < 24 && rest < 3_600_000
    requires t == day * 86_400_000 + hour * 3_600_000 + rest
    ensures HourOf(t) == Some(hour)
  {
    assert t / 3_600_000 == day * 24 + hour;
  }

  /** A clock is trusted by how many samples it has and how concentrated they are. */
  lemma {:induction false} ConfidenceExactly(samples: nat, concentration: real)
    ensures ConfidenceOf(samples, concentration) == Strong <==> samples >= 40 && concentration >= 0.7
    ensures ConfidenceOf(samples, concentration) == Weak <==> samples < 15 || concentration < 0.55
  {
  }
}
