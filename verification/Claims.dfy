/** The rest of `deriveMetrics`, and the claims it is thresholded into (`deriveClaims`). */
module Claims {
  import opened Utf
  import opened Numbers
  import opened Derive
  import opened Metrics
  import Sorting

  // Fee decomposition

  datatype Sample = Sample(fees: real, mev: real, used: bool)

  function BodySample(w: Window, ts: seq<Trade>, n: nat): Sample
    requires n <= |ts|
  {
    if n == 0 then Sample(0.0, 0.0, false)
    else
      var s, t := BodySample(w, ts, n - 1), ts[n - 1];
      if t.at.Some? && w.Contains(t.at.value) then Sample(s.fees + t.totalFees, s.mev + t.mevFees, true) else s
  }

  datatype Fees = Fees(total: real, mev: real, sources: seq<Number>)

  function SampledFees(w: Window, sources: seq<Source>, n: nat): Fees
    requires n <= |sources|
  {
    if n == 0 then Fees(0.0, 0.0, [])
    else
      var f, s := SampledFees(w, sources, n - 1), sources[n - 1];
      var b := BodySample(w, s.body.trades, |s.body.trades|);
      Fees(f.total + b.fees, f.mev + b.mev, if b.used then f.sources + [s.index] else f.sources)
  }

  method SampleTrades(w: Window, sources: seq<Source>) returns (f: Fees)
    ensures f == SampledFees(w, sources, |sources|)
  {
    f := Fees(0.0, 0.0, []);
    for i := 0 to |sources|
      invariant f == SampledFees(w, sources, i)
    {
      var trades := sources[i].body.trades;
      var total, mev, used := f.total, f.mev, false;
      for j := 0 to |trades|
        invariant total == f.total + BodySample(w, trades, j).fees && mev == f.mev + BodySample(w, trades, j).mev
        invariant used == BodySample(w, trades, j).used
      {
        var at := trades[j].at;
        if at.Some? && w.Contains(at.value) {
          total := total + trades[j].totalFees;
          mev := mev + trades[j].mevFees;
          used := true;
        }
      }
      f := Fees(total, mev, if used then f.sources + [sources[i].index] else f.sources);
    }
  }

  // Risk quality

  const SECURITY_SCORE_FLOOR := 60.0

  /** The last security response that names `asset`: a later one replaces an earlier one. */
  function SecurityFor(sources: seq<Source>, n: nat, asset: Text): Option<Source>
    requires n <= |sources|
  {
    if n == 0 then None
    else if sources[n - 1].body.security.asset == Some(asset) then Some(sources[n - 1])
    else SecurityFor(sources, n - 1, asset)
  }

  method IndexSecurity(sources: seq<Source>) returns (m: map<Text, Source>)
    ensures forall a :: SecurityFor(sources, |sources|, a) == if a in m then Some(m[a]) else None
  {
    m := map[];
    for i := 0 to |sources|
      invariant forall a :: SecurityFor(sources, i, a) == if a in m then Some(m[a]) else None
    {
      var asset := sources[i].body.security.asset;
      if asset.Some? {
        m := m[asset.value := sources[i]];
      }
    }
  }

  /** The security responses with a score, asset by asset. */
  function Readings(keys: seq<Text>, n: nat, security: seq<Source>): seq<Source>
    requires n <= |keys|
  {
    if n == 0 then []
    else
      var r := Readings(keys, n - 1, security);
      match SecurityFor(security, |security|, keys[n - 1])
      case None => r
      case Some(s) => if s.body.security.score.Some? then r + [s] else r
  }

  predicate Risky(s: Security) {
    s.killed || (s.score.Some? && s.score.value < SECURITY_SCORE_FLOOR)
  }

  function RiskyCount(readings: seq<Source>): (n: nat)
    ensures n <= |readings|
  {
    if readings == [] then 0
    else
      var k := |readings| - 1;
      RiskyCount(readings[..k]) + if Risky(readings[k].body.security) then 1 else 0
  }

  method ReadSecurity(keys: seq<Text>, security: seq<Source>) returns (readings: seq<Source>, risky: nat)
    ensures readings == Readings(keys, |keys|, security) && risky == RiskyCount(readings)
  {
    var byAsset := IndexSecurity(security);
    readings, risky := [], 0;
    for i := 0 to |keys|
      invariant readings == Readings(keys, i, security) && risky == RiskyCount(readings)
    {
      if keys[i] in byAsset {
        var s := byAsset[keys[i]];
        if s.body.security.score.Some? {
          ghost var before := readings;
          readings := readings + [s];
          assert readings[..|before|] == before;
          if Risky(s.body.security) {
            risky := risky + 1;
          }
        }
      }
    }
  }

  method FindTop(keys: seq<Text>, byAsset: VolumeMap, ghost cs: seq<Cycle>) returns (best: real)
    requires byAsset.Of(cs, |cs|) && forall k :: k in keys ==> k in byAsset.volumes
    ensures best == TopVolume(keys, |keys|, cs)
  {
    best := -1.0;
    for i := 0 to |keys|
      invariant best == TopVolume(keys, i, cs)
    {
      assert keys[i] in keys;
      if byAsset.volumes[keys[i]] > best {
        best := byAsset.volumes[keys[i]];
      }
    }
  }

  // Wallet age

  /** The oldest funding reported, in days before the end of the window, and who reported it. */
  function Oldest(w: Window, sources: seq<Source>, n: nat): Option<(real, Number)>
    requires n <= |sources|
  {
    if n == 0 then None
    else
      var best, s := Oldest(w, sources, n - 1), sources[n - 1];
      match s.body.funded
      case None => best
      case Some(at) =>
        var age := (w.to - at) / MS_PER_DAY;
        if best.None? || age > best.value.0 then Some((age, s.index)) else best
  }

  method FindOldest(w: Window, sources: seq<Source>) returns (best: Option<(real, Number)>)
    ensures best == Oldest(w, sources, |sources|)
  {
    best := None;
    for i := 0 to |sources|
      invariant best == Oldest(w, sources, i)
    {
      if sources[i].body.funded.Some? {
        var age := (w.to - sources[i].body.funded.value) / MS_PER_DAY;
        if best.None? || age > best.value.0 {
          best := Some((age, sources[i].index));
        }
      }
    }
  }

  // All metrics. A rounded metric is a count of units of its grid.

  datatype Measured = Measured(
    cycles: seq<Cycle>, history: seq<Number>, pnl: int,
    winRate: Option<int>, drawdown: Option<int>, holding: Option<int>, cost: Option<int>,
    mevShare: Option<int>, mevSources: seq<Number>,
    riskyShare: Option<int>, riskSources: seq<Number>,
    topShare: Option<int>, age: Option<int>, fundingIndex: Option<Number>)

  function Indices(sources: seq<Source>): seq<Number> {
    seq(|sources|, i requires 0 <= i < |sources| => sources[i].index)
  }

  function Ratio(a: real, b: real): Option<int> {
    if b > 0.0 then Some(Round(a / b, 6)) else None
  }

  function MetricsOf(before: (Text, Text) -> bool, w: Window, sources: seq<Source>): Measured {
    MetricsFrom(before, w, Usable(sources, History), Usable(sources, Trades),
                Usable(sources, TokenSecurity), Usable(sources, Funding))
  }

  function MetricsFrom(before: (Text, Text) -> bool, w: Window, history: seq<Source>, trades: seq<Source>,
                       security: seq<Source>, funding: seq<Source>): Measured
  {
    MetricsOfCycles(w, ClosedCycles(before, w, history), Indices(history), trades, security, funding)
  }

  function MetricsOfCycles(w: Window, cs: seq<Cycle>, history: seq<Number>, trades: seq<Source>,
                           security: seq<Source>, funding: seq<Source>): Measured
  {
    var n := |cs|;
    var gross, keys, days := Sum(Volumes(cs), n), Traded(cs), HoldingDays(cs, n);
    var f := SampledFees(w, trades, |trades|);
    var readings := Readings(keys, |keys|, security);
    var oldest := Oldest(w, funding, |funding|);
    Measured(
      cs, history, Round(Sum(Pnls(cs), n), 2),
      if n == 0 then None else Some(Round(Wins(cs, n) as real / n as real, 6)),
      if n == 0 then None else Some(Round(Drawdown(Pnls(cs), n), 2)),
      if days == [] then None else Some(Round(Median(days), 4)),
      Ratio(Sum(Derive.Fees(cs), n), gross),
      Ratio(f.mev, f.total), f.sources,
      if readings == [] then None else Some(Round(RiskyCount(readings) as real / |readings| as real, 6)),
      Indices(readings),
      Ratio(TopVolume(keys, |keys|, cs), gross),
      if oldest.None? then None else Some(Round(oldest.value.0, 2)),
      if oldest.None? then None else Some(oldest.value.1))
  }

  method DeriveMetrics(before: (Text, Text) -> bool, w: Window, sources: seq<Source>) returns (m: Measured)
    ensures m == MetricsOf(before, w, sources)
  {
    var history := CollectUsable(sources, History);
    var cs := CollectCycles(before, w, history);
    var trades := CollectUsable(sources, Trades);
    var security := CollectUsable(sources, TokenSecurity);
    var funding := CollectUsable(sources, Funding);
    m := MeasureCycles(w, cs, Indices(history), trades, security, funding);
  }

  method MeasureCycles(w: Window, cs: seq<Cycle>, history: seq<Number>, trades: seq<Source>,
                       security: seq<Source>, funding: seq<Source>) returns (m: Measured)
    ensures m == MetricsOfCycles(w, cs, history, trades, security, funding)
  {
    var walk := WalkCycles(cs);
    var t, count := walk.totals, |cs|;
    var f := SampleTrades(w, trades);
    var keys := Sorting.Sort(Canonical.KeyLess, walk.byAsset.keys);
    Sorting.SortElements(Canonical.KeyLess, walk.byAsset.keys);
    var readings, risky := ReadSecurity(keys, security);
    var best := FindTop(keys, walk.byAsset, cs);
    var oldest := FindOldest(w, funding);
    m := Measured(
      cs, history, Round(t.pnl, 2),
      if count == 0 then None else Some(Round(t.wins as real / count as real, 6)),
      if count == 0 then None else Some(Round(walk.curve.drawdown, 2)),
      if walk.holding == [] then None else Some(Round(Median(walk.holding), 4)),
      Ratio(t.fees, t.volume),
      Ratio(f.mev, f.total), f.sources,
      if readings == [] then None else Some(Round(risky as real / |readings| as real, 6)),
      Indices(readings),
      Ratio(best, t.volume),
      if oldest.None? then None else Some(Round(oldest.value.0, 2)),
      if oldest.None? then None else Some(oldest.value.1));
  }

  // Claims

  datatype ClaimId =
    | RealizedPnl | ClosedCount | WinRate | MaxDrawdown | MedianHolding
    | TradingCost | MevShare | RiskQuality | Concentration | WalletAge

  datatype Op = Gte | Lte | Eq | Between
  datatype Threshold = Bar(bar: real) | Range(lo: real, hi: real)

  function OpOf(id: ClaimId): Op {
    match id
    case RealizedPnl | ClosedCount | WinRate | MedianHolding | WalletAge => Gte
    case _ => Lte
  }

  function ThresholdOf(id: ClaimId): Threshold {
    Bar(match id
        case RealizedPnl => 0.0
        case ClosedCount => 10.0
        case WinRate => 0.4
        case MaxDrawdown => 25_000.0
        case MedianHolding => 1.0
        case TradingCost => 0.02
        case MevShare => 0.25
        case RiskQuality => 0.2
        case Concentration => 0.5
        case WalletAge => 180.0)
  }

  /** Decimal places of the metric as the code rounds it; the wallet age gets two, not the four
      its descriptor names. */
  function Grid(id: ClaimId): nat {
    match id
    case RealizedPnl | MaxDrawdown | WalletAge => 2
    case ClosedCount => 0
    case MedianHolding => 4
    case _ => 6
  }

  /** The threshold in units of the metric's grid. */
  function ThresholdUnits(id: ClaimId): int {
    match id
    case RealizedPnl => 0 case ClosedCount => 10 case WinRate => 400_000 case MaxDrawdown => 2_500_000
    case MedianHolding => 10_000 case TradingCost => 20_000 case MevShare => 250_000
    case RiskQuality => 200_000 case Concentration => 500_000 case WalletAge => 18_000
  }

  predicate Evaluate(op: Op, actual: real, threshold: Threshold) {
    match (op, threshold)
    case (Between, Range(lo, hi)) => lo <= actual <= hi
    case (Gte, Bar(bar)) => actual >= bar
    case (Lte, Bar(bar)) => actual <= bar
    case (Eq, Bar(bar)) => actual == bar
    case _ => false
  }

  datatype Claim = Claim(id: ClaimId, passed: bool, actual: int, sources: seq<Number>)

  predicate NumberLess(a: Number, b: Number) { ToReal(a) < ToReal(b) }

  function FirstOnly(s: seq<Number>): seq<Number> {
    if s == [] then []
    else
      var n := |s| - 1;
      if s[n] in s[..n] then FirstOnly(s[..n]) else FirstOnly(s[..n]) + [s[n]]
  }

  function MakeClaim(id: ClaimId, actual: int, sources: seq<Number>): Claim {
    Claim(id, Evaluate(OpOf(id), Unround(actual, Grid(id)), ThresholdOf(id)), actual,
          Sorting.Sort(NumberLess, FirstOnly(sources)))
  }

  function Rank(id: ClaimId): (r: nat)
    ensures r < 10
  {
    match id
    case RealizedPnl => 0 case ClosedCount => 1 case WinRate => 2 case MaxDrawdown => 3 case MedianHolding => 4
    case TradingCost => 5 case MevShare => 6 case RiskQuality => 7 case Concentration => 8 case WalletAge => 9
  }

  predicate ByRank(a: Claim, b: Claim) { Rank(a.id) < Rank(b.id) }

  /** What a claim is about, when its inputs were available. */
  function ActualOf(m: Measured, id: ClaimId): Option<int> {
    match id
    case RealizedPnl => if m.history == [] then None else Some(m.pnl)
    case ClosedCount => if m.history == [] then None else Some(|m.cycles|)
    case WinRate => m.winRate
    case MaxDrawdown => m.drawdown
    case MedianHolding => m.holding
    case TradingCost => m.cost
    case MevShare => m.mevShare
    case RiskQuality => m.riskyShare
    case Concentration => m.topShare
    case WalletAge => if m.fundingIndex.None? then None else m.age
  }

  function SourcesOf(m: Measured, id: ClaimId): seq<Number> {
    match id
    case MevShare => m.mevSources
    case RiskQuality => m.riskSources
    case WalletAge => if m.fundingIndex.None? then [] else [m.fundingIndex.value]
    case _ => m.history
  }

  function IdAt(n: nat): (id: ClaimId)
    requires n < 10
    ensures Rank(id) == n
  {
    if n == 0 then RealizedPnl else if n == 1 then ClosedCount else if n == 2 then WinRate
    else if n == 3 then MaxDrawdown else if n == 4 then MedianHolding else if n == 5 then TradingCost
    else if n == 6 then MevShare else if n == 7 then RiskQuality else if n == 8 then Concentration else WalletAge
  }

  /** The claims of the first `n` specifications, in specification order. */
  function Listed(m: Measured, n: nat): seq<Claim>
    requires n <= 10
  {
    if n == 0 then []
    else
      var id := IdAt(n - 1);
      match ActualOf(m, id)
      case None => Listed(m, n - 1)
      case Some(actual) => Listed(m, n - 1) + [MakeClaim(id, actual, SourcesOf(m, id))]
  }

  function ClaimsOf(m: Measured): seq<Claim> { Sorting.Sort(ByRank, Listed(m, 10)) }

  /** The ten guarded pushes of the source, written as a loop over the specifications. */
  method ListClaims(m: Measured) returns (claims: seq<Claim>)
    ensures claims == ClaimsOf(m)
  {
    claims := [];
    for k := 0 to 10
      invariant claims == Listed(m, k)
    {
      var id := IdAt(k);
      var actual := ActualOf(m, id);
      if actual.Some? {
        claims := claims + [MakeClaim(id, actual.value, SourcesOf(m, id))];
      }
    }
    claims := Sorting.Sort(ByRank, claims);
  }

  method DeriveClaims(before: (Text, Text) -> bool, w: Window, sources: seq<Source>) returns (claims: seq<Claim>)
    ensures claims == ClaimsOf(MetricsOf(before, w, sources))
  {
    var m := DeriveMetrics(before, w, sources);
    claims := ListClaims(m);
  }

  // Laws

  /** Every threshold is a whole number of units of its metric's grid. */
  lemma {:induction false} ThresholdOnGrid(id: ClaimId)
    ensures ThresholdOf(id) == Bar(Unround(ThresholdUnits(id), Grid(id)))
  {
    PowersOfTen();
  }

  /** A claim passes exactly when its measured value, in units of its last place, is on the right side
      of its bar; five claims ask for at least, the others for at most. */
  lemma {:induction false} PassedInUnits(id: ClaimId, actual: int, sources: seq<Number>)
    ensures MakeClaim(id, actual, sources).passed <==>
      match id
      case RealizedPnl => actual >= 0
      case ClosedCount => actual >= 10
      case WinRate => actual >= 400_000
      case MaxDrawdown => actual <= 2_500_000
      case MedianHolding => actual >= 10_000
      case TradingCost => actual <= 20_000
      case MevShare => actual <= 250_000
      case RiskQuality => actual <= 200_000
      case Concentration => actual <= 500_000
      case WalletAge => actual >= 18_000
  {
    ThresholdOnGrid(id);
    UnroundOrder(actual, ThresholdUnits(id), Grid(id));
    UnroundOrder(ThresholdUnits(id), actual, Grid(id));
    hide Unround;
  }

  lemma {:induction false} UnroundOrder(a: int, b: int, dp: nat)
    ensures a <= b <==> Unround(a, dp) <= Unround(b, dp)
  {
    var f := Pow10(dp) as real;
    assert Unround(a, dp) * f == a as real && Unround(b, dp) * f == b as real;
    if Unround(a, dp) <= Unround(b, dp) {
      assert Unround(a, dp) * f <= Unround(b, dp) * f;
    }
  }

  lemma {:induction false} PowersOfTen()
    ensures Pow10(0) == 1 && Pow10(2) == 100 && Pow10(4) == 10_000 && Pow10(6) == 1_000_000
  {
    assert Pow10(1) == 10 && Pow10(3) == 1_000 && Pow10(5) == 100_000;
  }

  /** Rounding never fails a claim: an exact value that meets the bar passes, and one that passes
      misses the bar by at most half a unit of the metric's last place. */
  ghost predicate KeepsTheBar(id: ClaimId, exact: real, passed: bool) {
    var op, bar := OpOf(id), ThresholdOf(id).bar;
    && (Evaluate(op, exact, ThresholdOf(id)) ==> passed)
    && (passed && op == Gte ==> exact >= bar - 0.5 / Pow10(Grid(id)) as real)
    && (passed && op == Lte ==> exact <= bar + 0.5 / Pow10(Grid(id)) as real)
  }

  lemma {:induction false} RoundedKeepsTheBar(id: ClaimId, exact: real, sources: seq<Number>)
    ensures KeepsTheBar(id, exact, MakeClaim(id, Round(exact, Grid(id)), sources).passed)
  {
    ThresholdOnGrid(id);
    var k, dp := ThresholdUnits(id), Grid(id);
    RoundNear(exact, Unround(k, dp), dp);
    RoundNear(Unround(k, dp), exact, dp);
    RoundOnGrid(k, dp);
    PowersOfTen();
  }

  /** Specification order; in particular no id occurs twice. */
  ghost predicate InOrder(cs: seq<Claim>) {
    forall i, j :: 0 <= i < j < |cs| ==> Rank(cs[i].id) < Rank(cs[j].id)
  }

  lemma {:induction false} ListedInOrder(m: Measured, n: nat)
    requires n <= 10
    ensures InOrder(Listed(m, n)) && forall i :: 0 <= i < |Listed(m, n)| ==> Rank(Listed(m, n)[i].id) < n
  {
    hide Rank, IdAt, ActualOf, MakeClaim, SourcesOf;
    if n > 0 {
      ListedInOrder(m, n - 1);
      var id := IdAt(n - 1);
      if ActualOf(m, id).Some? {
        NamedClaim(id, ActualOf(m, id).value, SourcesOf(m, id));
      }
    }
  }

  function Ids(cs: seq<Claim>): set<ClaimId> { set i | 0 <= i < |cs| :: cs[i].id }

  lemma {:induction false} ListedPresent(m: Measured, n: nat, id: ClaimId)
    requires n <= 10
    ensures id in Ids(Listed(m, n)) <==> Rank(id) < n && ActualOf(m, id).Some?
  {
    hide Rank, IdAt, ActualOf, MakeClaim, SourcesOf, Ids;
    if n == 0 {
      NoIds();
    } else {
      var at := IdAt(n - 1);
      RankTellsApart(id, at);
      ListedPresent(m, n - 1, id);
      if ActualOf(m, at).Some? {
        NamedClaim(at, ActualOf(m, at).value, SourcesOf(m, at));
        IdsStep(Listed(m, n - 1), MakeClaim(at, ActualOf(m, at).value, SourcesOf(m, at)));
      }
    }
  }

  lemma {:induction false} NoIds()
    ensures Ids([]) == {}
  {
  }

  lemma {:induction false} RankTellsApart(a: ClaimId, b: ClaimId)
    ensures Rank(a) == Rank(b) ==> a == b
  {
  }

  lemma {:induction false} NamedClaim(id: ClaimId, actual: int, sources: seq<Number>)
    ensures MakeClaim(id, actual, sources).id == id && MakeClaim(id, actual, sources).actual == actual
  {
  }

  lemma {:induction false} IdsStep(s: seq<Claim>, c: Claim)
    ensures Ids(s + [c]) == Ids(s) + {c.id}
  {
    assert (s + [c])[|s|] == c;
    assert forall i :: 0 <= i < |s| ==> (s + [c])[i] == s[i];
  }

  /** Claims come in specification order, each at most once, and a claim is present exactly when
      its metric could be computed. */
  lemma {:induction false} DerivedInOrder(m: Measured)
    ensures ClaimsOf(m) == Listed(m, 10) && InOrder(ClaimsOf(m))
    ensures forall id :: id in Ids(ClaimsOf(m)) <==> ActualOf(m, id).Some?
  {
    forall id
      ensures id in Ids(Listed(m, 10)) <==> ActualOf(m, id).Some?
    {
      ListedPresent(m, 10, id);
    }
    ListedInOrder(m, 10);
    Sorting.SortIdempotent(ByRank, Listed(m, 10));
  }

  // What the other metrics measure

  /** A trade response backs the fee claims exactly when it holds a trade inside the window. */
  lemma {:induction false} SampledExactly(w: Window, ts: seq<Trade>, n: nat)
    requires n <= |ts|
    ensures BodySample(w, ts, n).used <==> exists j :: 0 <= j < n && ts[j].at.Some? && w.Contains(ts[j].at.value)
    ensures !BodySample(w, ts, n).used ==> BodySample(w, ts, n) == Sample(0.0, 0.0, false)
  {
    if n > 0 {
      SampledExactly(w, ts, n - 1);
    }
  }

  /** The wallet age is the largest any funding response gives, from the first that gives it. */
  lemma {:induction false} OldestIsFirstLargest(w: Window, ss: seq<Source>, n: nat)
    requires n <= |ss|
    ensures Oldest(w, ss, n).None? <==> forall i :: 0 <= i < n ==> ss[i].body.funded.None?
    ensures Oldest(w, ss, n).Some? ==>
              forall i :: 0 <= i < n && ss[i].body.funded.Some? ==> AgeOf(w, ss[i]) <= Oldest(w, ss, n).value.0
    ensures Oldest(w, ss, n).Some? ==>
              exists i :: 0 <= i < n && ss[i].body.funded.Some?
                && Oldest(w, ss, n).value == (AgeOf(w, ss[i]), ss[i].index)
                && forall j :: 0 <= j < i && ss[j].body.funded.Some? ==> AgeOf(w, ss[j]) < AgeOf(w, ss[i])
  {
    if n > 0 {
      OldestIsFirstLargest(w, ss, n - 1);
    }
  }

  /** Days between a reported funding and the end of the window. */
  function AgeOf(w: Window, s: Source): real
    requires s.body.funded.Some?
  {
    (w.to - s.body.funded.value) / MS_PER_DAY
  }

  // What each claim measures

  function Quotient(a: real, b: real): Option<real> { if b > 0.0 then Some(a / b) else None }

  /** The value a claim is about before it is rounded, when its inputs are available. */
  function ExactOf(w: Window, cs: seq<Cycle>, history: seq<Number>, trades: seq<Source>, security: seq<Source>,
                   funding: seq<Source>, id: ClaimId): Option<real>
  {
    var n := |cs|;
    var gross, keys, days := Sum(Volumes(cs), n), Traded(cs), HoldingDays(cs, n);
    var f, readings := SampledFees(w, trades, |trades|), Readings(keys, |keys|, security);
    match id
    case RealizedPnl => if history == [] then None else Some(Sum(Pnls(cs), n))
    case ClosedCount => if history == [] then None else Some(n as real)
    case WinRate => Quotient(Wins(cs, n) as real, n as real)
    case MaxDrawdown => if n == 0 then None else Some(Drawdown(Pnls(cs), n))
    case MedianHolding => if days == [] then None else Some(Median(days))
    case TradingCost => Quotient(Sum(Derive.Fees(cs), n), gross)
    case MevShare => Quotient(f.mev, f.total)
    case RiskQuality => Quotient(RiskyCount(readings) as real, |readings| as real)
    case Concentration => Quotient(TopVolume(keys, |keys|, cs), gross)
    case WalletAge =>
      var oldest := Oldest(w, funding, |funding|);
      if oldest.None? then None else Some(oldest.value.0)
  }

  function Exact(before: (Text, Text) -> bool, w: Window, sources: seq<Source>, id: ClaimId): Option<real> {
    var history := Usable(sources, History);
    ExactOf(w, ClosedCycles(before, w, history), Indices(history), Usable(sources, Trades),
            Usable(sources, TokenSecurity), Usable(sources, Funding), id)
  }

  function Rounded(x: Option<real>, dp: nat): Option<int> {
    if x.None? then None else Some(Round(x.value, dp))
  }

  /** Every metric is its exact value rounded to the grid its claim is judged on. */
  lemma {:induction false} MeasuredExactly(w: Window, cs: seq<Cycle>, history: seq<Number>, trades: seq<Source>,
      security: seq<Source>, funding: seq<Source>, id: ClaimId)
    ensures ActualOf(MetricsOfCycles(w, cs, history, trades, security, funding), id)
         == Rounded(ExactOf(w, cs, history, trades, security, funding, id), Grid(id))
  {
    hide Round, Sum, Drawdown, Median, TopVolume, HoldingDays, Wins, Traded, SampledFees, Readings, RiskyCount, Oldest;
    RoundWhole(|cs|);
  }

  lemma {:induction false} RoundWhole(n: nat)
    ensures Round(n as real, 0) == n
  {
    assert Pow10(0) == 1;
  }

  lemma {:induction false} ListedMakes(m: Measured, n: nat, i: nat)
    requires n <= 10 && i < |Listed(m, n)|
    ensures var c := Listed(m, n)[i];
      ActualOf(m, c.id).Some? && c == MakeClaim(c.id, ActualOf(m, c.id).value, SourcesOf(m, c.id))
  {
    hide ActualOf, SourcesOf, IdAt;
    if i < |Listed(m, n - 1)| {
      ListedMakes(m, n - 1, i);
    }
  }

  lemma {:induction false} DerivedExactly(before: (Text, Text) -> bool, w: Window, sources: seq<Source>, id: ClaimId)
    ensures ActualOf(MetricsOf(before, w, sources), id) == Rounded(Exact(before, w, sources, id), Grid(id))
  {
    hide MetricsOfCycles, ExactOf, ActualOf, Rounded, Grid;
    var history := Usable(sources, History);
    MeasuredExactly(w, ClosedCycles(before, w, history), Indices(history), Usable(sources, Trades),
                    Usable(sources, TokenSecurity), Usable(sources, Funding), id);
  }

  lemma {:induction false} ClaimKeepsTheBar(m: Measured, i: nat, x: Option<real>)
    requires i < |ClaimsOf(m)| && ActualOf(m, ClaimsOf(m)[i].id) == Rounded(x, Grid(ClaimsOf(m)[i].id))
    ensures var c := ClaimsOf(m)[i];
      x.Some? && c.actual == Round(x.value, Grid(c.id)) && KeepsTheBar(c.id, x.value, c.passed)
  {
    hide MakeClaim, ActualOf, SourcesOf, Round, Grid, Listed, InOrder, Ids, KeepsTheBar, ClaimsOf;
    DerivedInOrder(m);
    ListedMakes(m, 10, i);
    var id := ClaimsOf(m)[i].id;
    NamedClaim(id, ActualOf(m, id).value, SourcesOf(m, id));
    RoundedKeepsTheBar(id, x.value, SourcesOf(m, id));
  }

  /** A derived claim exists exactly when its exact value does, states that value rounded, and keeps
      the bar. */
  lemma {:induction false} RoundingKeepsTheBar(before: (Text, Text) -> bool, w: Window, sources: seq<Source>,
      id: ClaimId)
    ensures var x, cs := Exact(before, w, sources, id), ClaimsOf(MetricsOf(before, w, sources));
      && (id in Ids(cs) <==> x.Some?)
      && forall i :: 0 <= i < |cs| && cs[i].id == id ==>
        x.Some? && cs[i].actual == Round(x.value, Grid(id)) && KeepsTheBar(id, x.value, cs[i].passed)
  {
    hide MetricsOf, Exact, KeepsTheBar, ActualOf, Round, Grid, ClaimsOf, Ids, InOrder;
    var m := MetricsOf(before, w, sources);
    DerivedExactly(before, w, sources, id);
    DerivedInOrder(m);
    forall i | 0 <= i < |ClaimsOf(m)| && ClaimsOf(m)[i].id == id
      ensures var x, c := Exact(before, w, sources, id), ClaimsOf(m)[i];
        x.Some? && c.actual == Round(x.value, Grid(id)) && KeepsTheBar(id, x.value, c.passed)
    {
      ClaimKeepsTheBar(m, i, Exact(before, w, sources, id));
    }
  }

  /** With no negative volumes, the concentration that is claimed lies between an even split over the
      assets traded and the whole, up to its rounding. */
  lemma {:induction false} ConcentrationBounds(before: (Text, Text) -> bool, w: Window, sources: seq<Source>)
    requires MetricsOf(before, w, sources).topShare.Some?
    requires forall i :: 0 <= i < |MetricsOf(before, w, sources).cycles| ==>
      MetricsOf(before, w, sources).cycles[i].volume >= 0.0
    ensures var m := MetricsOf(before, w, sources);
      |Traded(m.cycles)| > 0 && Round(1.0 / |Traded(m.cycles)| as real, 6) <= m.topShare.value <= 1_000_000
  {
    var cs := MetricsOf(before, w, sources).cycles;
    hide TopVolume, Traded;
    TradedKeys(cs);
    TopShareBounds(Traded(cs), cs);
    var share := TopShare(Traded(cs), cs);
    RoundNear(1.0 / |Traded(cs)| as real, share, 6);
    RoundNear(share, 1.0, 6);
    PowersOfTen();
  }
}
