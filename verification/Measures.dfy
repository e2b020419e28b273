/** What the derivation counts, adds up and lists, said without its loops. */
module Measures {
  import opened Utf
  import opened Numbers
  import opened Derive
  import opened Metrics
  import opened Claims
  import opened DeriveOrder
  import Lists
  import Sorting

  // Closed cycles

  /** The entry is the one cycle `k` inside the window. */
  predicate Names(w: Window, e: Closed, k: Identity) {
    w.from <= e.exitMs <= w.to && e.asset == k.asset && e.entryMs == k.entryMs && e.exitMs == k.exitMs
  }

  ghost predicate NoneNames(w: Window, entries: seq<Closed>, k: Identity) {
    forall j :: 0 <= j < |entries| ==> !Names(w, entries[j], k)
  }

  /** What entry `e`, listed in the source with index `x`, becomes. */
  predicate Becomes(e: Closed, x: Number, c: Cycle) {
    && c.asset == e.asset && c.entryMs == e.entryMs && c.exitMs == e.exitMs
    && c.pnl == e.pnl && c.fees == e.fees && c.volume == e.volume && c.source == x
  }

  /** The first entry of the list that names the identity of `c` becomes `c`. */
  ghost predicate FirstHere(w: Window, entries: seq<Closed>, x: Number, c: Cycle) {
    exists j :: 0 <= j < |entries| && FirstAt(w, entries, x, c, j)
  }

  ghost predicate FirstAt(w: Window, entries: seq<Closed>, x: Number, c: Cycle, j: nat)
    requires j < |entries|
  {
    && Names(w, entries[j], IdentityOf(c)) && Becomes(entries[j], x, c)
    && NoneNames(w, entries[..j], IdentityOf(c))
  }

  lemma {:induction false} FirstInBody(w: Window, entries: seq<Closed>, x: Number, c: Cycle)
    ensures var k := IdentityOf(c);
      && (FirstOf(InWindow(w, entries, x), k) == None <==> NoneNames(w, entries, k))
      && (FirstOf(InWindow(w, entries, x), k) == Some(c) <==> FirstHere(w, entries, x, c))
  {
    if entries != [] {
      var n, k := |entries| - 1, IdentityOf(c);
      FirstInBody(w, entries[..n], x, c);
      var e, init := entries[n], InWindow(w, entries[..n], x);
      assert entries == entries[..n] + [e];
      if w.Contains(e.exitMs) {
        FirstOfConcat(init, [WithSource(e, x)], k);
        OnlyOne(WithSource(e, x), k);
      }
      FirstHereStep(w, entries, x, c);
      hide FirstOf, FirstHere, InWindow;
      assert NoneNames(w, entries, k) <==> NoneNames(w, entries[..n], k) && !Names(w, e, k);
    }
  }

  lemma {:induction false} OnlyOne(c: Cycle, k: Identity)
    ensures FirstOf([c], k) == if IdentityOf(c) == k then Some(c) else None
  {
    assert [c][..0] == [];
    assert FirstOf([], k) == None;
  }

  lemma {:induction false} FirstHereStep(w: Window, entries: seq<Closed>, x: Number, c: Cycle)
    requires entries != []
    ensures var n, k := |entries| - 1, IdentityOf(c);
      FirstHere(w, entries, x, c) <==>
        || FirstHere(w, entries[..n], x, c)
        || (NoneNames(w, entries[..n], k) && Names(w, entries[n], k) && Becomes(entries[n], x, c))
  {
    var n, k := |entries| - 1, IdentityOf(c);
    hide Becomes;
    if j :| 0 <= j < |entries| && FirstAt(w, entries, x, c, j) {
      if j < n {
        assert entries[..n][..j] == entries[..j];
        assert FirstAt(w, entries[..n], x, c, j);
      }
    }
    if j :| 0 <= j < n && FirstAt(w, entries[..n], x, c, j) {
      assert entries[..n][..j] == entries[..j];
      assert FirstAt(w, entries, x, c, j);
    }
    if NoneNames(w, entries[..n], k) && Names(w, entries[n], k) && Becomes(entries[n], x, c) {
      assert FirstAt(w, entries, x, c, n);
    }
  }

  /** The first source that names the identity of `c` makes it `c`. */
  ghost predicate FirstListed(w: Window, h: seq<Source>, i: nat, c: Cycle) {
    && i < |h| && FirstHere(w, h[i].body.history, h[i].index, c)
    && forall m :: 0 <= m < i ==> NoneNames(w, h[m].body.history, IdentityOf(c))
  }

  lemma {:induction false} FirstAmong(w: Window, h: seq<Source>, n: nat, c: Cycle)
    requires n <= |h|
    ensures FirstOf(Candidates(w, h[..n]), IdentityOf(c)) == None <==>
      forall m :: 0 <= m < n ==> NoneNames(w, h[m].body.history, IdentityOf(c))
    ensures FirstOf(Candidates(w, h[..n]), IdentityOf(c)) == Some(c) <==>
      exists i :: 0 <= i < n && FirstListed(w, h, i, c)
  {
    hide FirstOf, FirstHere, NoneNames, InWindow, IdentityOf, Candidates;
    if n == 0 {
      NothingListed(w, h, IdentityOf(c));
    } else {
      var k, last := IdentityOf(c), h[n - 1];
      FirstAmong(w, h, n - 1, c);
      CandidatesStep(w, h, n - 1);
      assert h[..n - 1 + 1] == h[..n];
      FirstOfConcat(Candidates(w, h[..n - 1]), InWindow(w, last.body.history, last.index), k);
      FirstInBody(w, last.body.history, last.index, c);
      FirstHereNames(w, last.body.history, last.index, c);
      if i :| 0 <= i < n && FirstListed(w, h, i, c) {
        FirstHereNames(w, h[i].body.history, h[i].index, c);
      }
      assert FirstListed(w, h, n - 1, c) <==>
        FirstHere(w, last.body.history, last.index, c) && forall m :: 0 <= m < n - 1 ==>
          NoneNames(w, h[m].body.history, k);
    }
  }

  lemma {:induction false} FirstHereNames(w: Window, entries: seq<Closed>, x: Number, c: Cycle)
    ensures FirstHere(w, entries, x, c) ==> !NoneNames(w, entries, IdentityOf(c))
  {
  }

  /** The order of the cycles: by exit, then by entry with a missing one as the epoch, then by asset. */
  predicate Later(before: (Text, Text) -> bool, c: Cycle, d: Cycle) {
    var x, y := if c.entryMs.Some? then c.entryMs.value else 0.0, if d.entryMs.Some? then d.entryMs.value else 0.0;
    c.exitMs > d.exitMs || (c.exitMs == d.exitMs && (x > y || (x == y && before(d.asset, c.asset))))
  }

  /** The closed cycles are the first listings, inside the window, of each asset with its entry and exit,
      each once, in order of exit, entry and asset. */
  lemma {:induction false} ClosedExactly(before: (Text, Text) -> bool, w: Window, h: seq<Source>)
    requires Collation(before)
    ensures forall c :: c in ClosedCycles(before, w, h) <==> exists i :: 0 <= i < |h| && FirstListed(w, h, i, c)
    ensures var cs := ClosedCycles(before, w, h);
      && (forall i, j :: 0 <= i < j < |cs| ==> !Later(before, cs[i], cs[j]))
      && DistinctIdentities(cs)
  {
    hide FirstListed, FirstOf, IdentityOf, Candidates, Dedupe, Sorting.Sort, Collation;
    var all := Candidates(w, h);
    DedupeKeepsFirst(all);
    OrderStrict(before);
    Sorting.SortSorted(Order(before), Dedupe(all));
    Sorting.SortElements(Order(before), Dedupe(all));
    assert h[..|h|] == h;
    forall c
      ensures FirstOf(all, IdentityOf(c)) == Some(c) <==> exists i :: 0 <= i < |h| && FirstListed(w, h, i, c)
    {
      FirstAmong(w, h, |h|, c);
    }
    var cs := ClosedCycles(before, w, h);
    forall i, j | 0 <= i < j < |cs|
      ensures !Later(before, cs[i], cs[j])
    {
      assert !Order(before)(cs[j], cs[i]);
    }
    forall i, j | 0 <= i < j < |cs|
      ensures IdentityOf(cs[i]) != IdentityOf(cs[j])
    {
      SortedOnce(before, Dedupe(all), i, j);
      assert cs[i] in cs && cs[j] in cs;
    }
  }

  // Fees and risk

  function InsideOf(w: Window): Trade -> bool {
    (t: Trade) => t.at.Some? && w.from <= t.at.value <= w.to
  }

  /** All trades of the first `n` responses. */
  function AllTrades(sources: seq<Source>, n: nat): seq<Trade>
    requires n <= |sources|
  {
    if n == 0 then [] else AllTrades(sources, n - 1) + sources[n - 1].body.trades
  }

  /** The trades dated inside the window. */
  function Sampled(w: Window, sources: seq<Source>, n: nat): seq<Trade>
    requires n <= |sources|
  {
    Lists.Where(InsideOf(w), AllTrades(sources, n))
  }

  function TotalFeesOf(ts: seq<Trade>): (r: seq<real>)
    ensures |r| == |ts| && forall i :: 0 <= i < |r| ==> r[i] == ts[i].totalFees
  {
    seq(|ts|, i requires 0 <= i < |ts| => ts[i].totalFees)
  }

  function MevFeesOf(ts: seq<Trade>): (r: seq<real>)
    ensures |r| == |ts| && forall i :: 0 <= i < |r| ==> r[i] == ts[i].mevFees
  {
    seq(|ts|, i requires 0 <= i < |ts| => ts[i].mevFees)
  }

  lemma {:induction false} FeesConcat(a: seq<Trade>, b: seq<Trade>)
    ensures Sum(TotalFeesOf(a + b), |a + b|) == Sum(TotalFeesOf(a), |a|) + Sum(TotalFeesOf(b), |b|)
    ensures Sum(MevFeesOf(a + b), |a + b|) == Sum(MevFeesOf(a), |a|) + Sum(MevFeesOf(b), |b|)
  {
    hide Sum;
    assert TotalFeesOf(a + b) == TotalFeesOf(a) + TotalFeesOf(b);
    assert MevFeesOf(a + b) == MevFeesOf(a) + MevFeesOf(b);
    SumConcat(TotalFeesOf(a), TotalFeesOf(b), |b|);
    SumConcat(MevFeesOf(a), MevFeesOf(b), |b|);
  }

  lemma {:induction false} OneTrade(t: Trade)
    ensures Sum(TotalFeesOf([t]), 1) == t.totalFees && Sum(MevFeesOf([t]), 1) == t.mevFees
  {
    assert Sum(TotalFeesOf([t]), 0) == 0.0 && Sum(MevFeesOf([t]), 0) == 0.0;
  }

  lemma {:induction false} BodySums(w: Window, ts: seq<Trade>, n: nat)
    requires n <= |ts|
    ensures var kept := Lists.Where(InsideOf(w), ts[..n]);
      && BodySample(w, ts, n).fees == Sum(TotalFeesOf(kept), |kept|)
      && BodySample(w, ts, n).mev == Sum(MevFeesOf(kept), |kept|)
      && (BodySample(w, ts, n).used <==> kept != [])
  {
    if n > 0 {
      BodySums(w, ts, n - 1);
      Lists.WhereStep(InsideOf(w), ts, n - 1);
      var kept, t := Lists.Where(InsideOf(w), ts[..n - 1]), ts[n - 1];
      hide Sum;
      FeesConcat(kept, [t]);
      OneTrade(t);
      assert kept + [] == kept;
    }
  }

  /** The sampled fees are the sums of `totalFeesUSD` and of `mevFeesUSD` over all trades dated inside the
      window. */
  lemma {:induction false} SampledSums(w: Window, sources: seq<Source>, n: nat)
    requires n <= |sources|
    ensures var f, ts := SampledFees(w, sources, n), Sampled(w, sources, n);
      f.total == Sum(TotalFeesOf(ts), |ts|) && f.mev == Sum(MevFeesOf(ts), |ts|)
  {
    hide Sum, Lists.Where, BodySample;
    if n == 0 {
      NoFees();
    } else {
      SampledSums(w, sources, n - 1);
      var more := sources[n - 1].body.trades;
      BodySums(w, more, |more|);
      assert more[..|more|] == more;
      Lists.WhereConcat(InsideOf(w), AllTrades(sources, n - 1), more);
      FeesConcat(Sampled(w, sources, n - 1), Lists.Where(InsideOf(w), more));
    }
  }

  lemma {:induction false} NoFees()
    ensures Sum(TotalFeesOf([]), 0) == 0.0 && Sum(MevFeesOf([]), 0) == 0.0
    ensures forall p: Trade -> bool :: Lists.Where(p, []) == []
  {
  }

  lemma {:induction false} SumsOrdered(a: seq<real>, b: seq<real>, n: nat)
    requires n <= |a| == |b| && forall i :: 0 <= i < n ==> 0.0 <= a[i] <= b[i]
    ensures 0.0 <= Sum(a, n) <= Sum(b, n)
  {
    if n > 0 {
      SumsOrdered(a, b, n - 1);
    }
  }

  /** When no trade takes more for bots than its fees, the share claimed lies between nothing and all. */
  lemma {:induction false} MevShareBounds(before: (Text, Text) -> bool, w: Window, sources: seq<Source>)
    requires MetricsOf(before, w, sources).mevShare.Some?
    requires var trades := Usable(sources, Trades);
      forall t :: t in Sampled(w, trades, |trades|) ==> 0.0 <= t.mevFees <= t.totalFees
    ensures 0 <= MetricsOf(before, w, sources).mevShare.value <= 1_000_000
  {
    var trades := Usable(sources, Trades);
    var ts := Sampled(w, trades, |trades|);
    var f := SampledFees(w, trades, |trades|);
    SampledSums(w, trades, |trades|);
    SumsOrdered(MevFeesOf(ts), TotalFeesOf(ts), |ts|);
    assert MetricsOf(before, w, sources).mevShare == Ratio(f.mev, f.total);
    hide MetricsOf, SampledFees, Sum;
    ShareInUnits(f.mev, f.total);
  }

  lemma {:induction false} ShareInUnits(a: real, b: real)
    requires 0.0 <= a <= b && b > 0.0
    ensures 0 <= Round(a / b, 6) <= 1_000_000
  {
    assert 0.0 <= a / b <= 1.0;
    RoundNear(0.0, a / b, 6);
    RoundNear(a / b, 1.0, 6);
    PowersOfTen();
  }

  /** The response used for an asset is the last one that names it. */
  lemma {:induction false} SecurityIsLast(sources: seq<Source>, n: nat, asset: Text)
    requires n <= |sources|
    ensures SecurityFor(sources, n, asset).None? <==>
      forall i :: 0 <= i < n ==> sources[i].body.security.asset != Some(asset)
    ensures SecurityFor(sources, n, asset).Some? ==>
      exists i :: 0 <= i < n && SecurityFor(sources, n, asset).value == sources[i]
        && sources[i].body.security.asset == Some(asset)
        && forall j :: i < j < n ==> sources[j].body.security.asset != Some(asset)
  {
    if n > 0 {
      SecurityIsLast(sources, n - 1, asset);
    }
  }

  /** Killed, or scored below sixty. */
  function RiskyReading(): Source -> bool {
    (s: Source) => s.body.security.killed || (s.body.security.score.Some? && s.body.security.score.value < 60.0)
  }

  lemma {:induction false} RiskyCounted(readings: seq<Source>)
    ensures RiskyCount(readings) == |Lists.Where(RiskyReading(), readings)|
  {
    if readings != [] {
      RiskyCounted(readings[..|readings| - 1]);
    }
  }

  /** The readings are the scored responses used for the assets, at most one each. */
  lemma {:induction false} ReadingsExactly(keys: seq<Text>, n: nat, security: seq<Source>, s: Source)
    requires n <= |keys|
    ensures |Readings(keys, n, security)| <= n
    ensures s in Readings(keys, n, security) <==>
      s.body.security.score.Some? && exists k :: 0 <= k < n && SecurityFor(security, |security|, keys[k]) == Some(s)
  {
    hide SecurityFor;
    if n > 0 {
      ReadingsExactly(keys, n - 1, security, s);
    }
  }

  // Which sources stand behind a claim

  lemma {:induction false} UsableMembers(sources: seq<Source>, e: Endpoint, s: Source)
    ensures s in Usable(sources, e) <==> s in sources && s.endpoint == e && s.usable
  {
    Sorting.SortElements(ByIndex, Matching(sources, e));
  }

  lemma {:induction false} SampledSources(w: Window, sources: seq<Source>, n: nat, x: Number)
    requires n <= |sources|
    ensures x in SampledFees(w, sources, n).sources <==>
      exists i :: 0 <= i < n && sources[i].index == x && Lists.Where(InsideOf(w), sources[i].body.trades) != []
  {
    hide Lists.Where, BodySample, Sum;
    if n > 0 {
      SampledSources(w, sources, n - 1, x);
      var more := sources[n - 1].body.trades;
      BodySums(w, more, |more|);
      assert more[..|more|] == more;
    }
  }

  /** One of the responses has index `x`. */
  ghost predicate Numbered(ss: seq<Source>, x: Number) { exists s :: s in ss && s.index == x }

  /** One of the responses with a trade inside the window has index `x`. */
  ghost predicate Trading(w: Window, ss: seq<Source>, x: Number) {
    exists s :: s in ss && s.index == x && Lists.Where(InsideOf(w), s.body.trades) != []
  }

  /** The response with index `x` stands behind claim `id`. */
  ghost predicate Backs(w: Window, sources: seq<Source>, keys: seq<Text>, id: ClaimId, x: Number) {
    match id
    case MevShare => Trading(w, Usable(sources, Trades), x)
    case RiskQuality => Numbered(Readings(keys, |keys|, Usable(sources, TokenSecurity)), x)
    case WalletAge =>
      var funding := Usable(sources, Funding);
      Oldest(w, funding, |funding|).Some? && Oldest(w, funding, |funding|).value.1 == x
    case _ => Numbered(Usable(sources, History), x)
  }

  lemma {:induction false} IndicesOf(ss: seq<Source>, x: Number)
    ensures x in Indices(ss) <==> Numbered(ss, x)
  {
    if x in Indices(ss) {
      var i :| 0 <= i < |ss| && Indices(ss)[i] == x;
      assert ss[i] in ss;
    }
    if s :| s in ss && s.index == x {
      var i :| 0 <= i < |ss| && ss[i] == s;
      assert Indices(ss)[i] == x;
    }
  }

  lemma {:induction false} FirstOnlyElements(s: seq<Number>)
    ensures forall x :: x in FirstOnly(s) <==> x in s
    ensures forall i, j :: 0 <= i < j < |FirstOnly(s)| ==> FirstOnly(s)[i] != FirstOnly(s)[j]
  {
    if s != [] {
      var n := |s| - 1;
      FirstOnlyElements(s[..n]);
      assert s == s[..n] + [s[n]];
    }
  }

  lemma {:induction false} NumberLessStrict()
    ensures Sorting.StrictOrder(NumberLess)
  {
    hide ToReal;
  }

  /** The list of sources a claim prints: ascending, without repetition, what was collected for it. */
  lemma {:induction false} SourcesListed(id: ClaimId, actual: int, sources: seq<Number>)
    ensures var r := MakeClaim(id, actual, sources).sources;
      && (forall x :: x in r <==> x in sources)
      && (forall i, j :: 0 <= i < j < |r| ==> ToReal(r[i]) <= ToReal(r[j]) && r[i] != r[j])
  {
    var d, r := FirstOnly(sources), MakeClaim(id, actual, sources).sources;
    FirstOnlyElements(sources);
    NumberLessStrict();
    Sorting.SortSorted(NumberLess, d);
    Sorting.SortElements(NumberLess, d);
    Sorting.CountedOnce(d);
    hide ToReal, FirstOnly, Sorting.Sort, Evaluate;
    forall i, j | 0 <= i < j < |r|
      ensures ToReal(r[i]) <= ToReal(r[j]) && r[i] != r[j]
    {
      assert !NumberLess(r[j], r[i]);
      if r[i] == r[j] {
        Sorting.CountedTwice(r, i, j);
      }
    }
  }

  lemma {:induction false} SampledAmong(w: Window, trades: seq<Source>, x: Number)
    ensures x in SampledFees(w, trades, |trades|).sources <==> Trading(w, trades, x)
  {
    SampledSources(w, trades, |trades|, x);
    hide SampledFees, Lists.Where, InsideOf;
    if s :| s in trades && s.index == x && Lists.Where(InsideOf(w), s.body.trades) != [] {
      var i :| 0 <= i < |trades| && trades[i] == s;
    }
  }

  /** Where the lists of sources are collected. */
  lemma {:induction false} Collected(before: (Text, Text) -> bool, w: Window, sources: seq<Source>)
    ensures var m, trades, funding :=
        MetricsOf(before, w, sources), Usable(sources, Trades), Usable(sources, Funding);
      && m.history == Indices(Usable(sources, History))
      && m.mevSources == SampledFees(w, trades, |trades|).sources
      && m.riskSources == Indices(Readings(Traded(m.cycles), |Traded(m.cycles)|, Usable(sources, TokenSecurity)))
      && m.fundingIndex == match Oldest(w, funding, |funding|) case None => None case Some(o) => Some(o.1)
  {
    hide Usable, SampledFees, Readings, Indices, Oldest, Traded, ClosedCycles, Round, Sum, Ratio, Median, HoldingDays;
    hide Wins, Drawdown, RiskyCount, TopVolume;
  }

  lemma {:induction false} CollectedBacks(before: (Text, Text) -> bool, w: Window, sources: seq<Source>, id: ClaimId,
      x: Number)
    ensures var m := MetricsOf(before, w, sources);
      x in SourcesOf(m, id) <==> Backs(w, sources, Traded(m.cycles), id, x)
  {
    hide MetricsOf, Usable, SampledFees, Readings, Indices, Oldest, Traded, Numbered, Trading;
    Collected(before, w, sources);
    var keys := Traded(MetricsOf(before, w, sources).cycles);
    SampledAmong(w, Usable(sources, Trades), x);
    IndicesOf(Usable(sources, History), x);
    IndicesOf(Readings(keys, |keys|, Usable(sources, TokenSecurity)), x);
  }

  /** A derived claim prints, in ascending order and without repetition, exactly the responses behind it:
      all usable histories for seven claims, the trade responses with a trade in the window, the scored
      security responses used, and the response with the oldest funding. */
  lemma {:induction false} BackedExactly(before: (Text, Text) -> bool, w: Window, sources: seq<Source>, i: nat)
    requires i < |ClaimsOf(MetricsOf(before, w, sources))|
    ensures var m := MetricsOf(before, w, sources);
      var c := ClaimsOf(m)[i];
      && (forall x :: x in c.sources <==> Backs(w, sources, Traded(m.cycles), c.id, x))
      && forall j, k :: 0 <= j < k < |c.sources| ==>
        ToReal(c.sources[j]) <= ToReal(c.sources[k]) && c.sources[j] != c.sources[k]
  {
    hide MetricsOf, ClaimsOf, MakeClaim, SourcesOf, ActualOf, Backs, ToReal, Listed, InOrder, Ids, Traded;
    var m := MetricsOf(before, w, sources);
    DerivedInOrder(m);
    ListedMakes(m, 10, i);
    var c := ClaimsOf(m)[i];
    SourcesListed(c.id, ActualOf(m, c.id).value, SourcesOf(m, c.id));
    forall x
      ensures x in SourcesOf(m, c.id) <==> Backs(w, sources, Traded(m.cycles), c.id, x)
    {
      CollectedBacks(before, w, sources, c.id, x);
    }
  }
}
