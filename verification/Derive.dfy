/** The derivation (packages/evidence/src/derive.ts): from usable sources to metrics to claims.

    Bodies arrive as the typed slices the derivation reads (`Reading` builds them from JSON). The
    loops of the source are methods; each is proved equal to a function, and the functions carry
    the laws: the drawdown is the largest fall of the running total, volumes are conserved, the
    largest share and the median are where they must be. Money, time and ratios are reals. */
module Derive {
  import opened Utf
  import opened Numbers
  import opened Canonical
  import Lists
  import Sorting

  // What the upstream says

  datatype Cycle = Cycle(
    asset: Text, entryMs: Option<real>, exitMs: real,
    pnl: real, fees: real, volume: real, source: Number)

  /** Asset, entry and exit: two listings of one trade cycle agree on these. */
  datatype Identity = Identity(asset: Text, entryMs: Option<real>, exitMs: real)

  /** A position-history entry that is closed and has an exit date. */
  datatype Closed = Closed(asset: Text, entryMs: Option<real>, exitMs: real, pnl: real, fees: real, volume: real)

  datatype Trade = Trade(at: Option<real>, totalFees: real, mevFees: real)

  /** `asset` is empty when the response names no address. */
  datatype Security = Security(asset: Option<Text>, score: Option<real>, killed: bool)

  datatype Body = Body(history: seq<Closed>, trades: seq<Trade>, security: Security, funded: Option<real>)

  datatype Endpoint = History | Trades | TokenSecurity | Funding | Other

  datatype Source = Source(index: Number, endpoint: Endpoint, usable: bool, body: Body)

  datatype Window = Window(from: real, to: real) {
    predicate Contains(t: real) { from <= t <= to }
  }

  const MS_PER_DAY := 86_400_000.0

  // Usable sources

  predicate ByIndex(a: Source, b: Source) { ToReal(a.index) < ToReal(b.index) }

  function Matching(sources: seq<Source>, e: Endpoint): (r: seq<Source>)
    ensures forall s :: s in r <==> s in sources && s.endpoint == e && s.usable
  {
    if sources == [] then []
    else
      var last := sources[|sources| - 1];
      var init := Matching(sources[..|sources| - 1], e);
      assert sources == sources[..|sources| - 1] + [last];
      if last.endpoint == e && last.usable then init + [last] else init
  }

  function Usable(sources: seq<Source>, e: Endpoint): seq<Source> {
    Sorting.Sort(ByIndex, Matching(sources, e))
  }

  method CollectUsable(sources: seq<Source>, e: Endpoint) returns (out: seq<Source>)
    ensures out == Usable(sources, e)
  {
    out := [];
    for i := 0 to |sources|
      invariant out == Matching(sources[..i], e)
    {
      assert sources[..i + 1][..i] == sources[..i];
      if sources[i].endpoint == e && sources[i].usable {
        out := out + [sources[i]];
      }
    }
    assert sources[..|sources|] == sources;
    out := Sorting.Sort(ByIndex, out);
  }

  // Closed cycles

  function IdentityOf(c: Cycle): Identity { Identity(c.asset, c.entryMs, c.exitMs) }

  function WithSource(c: Closed, source: Number): Cycle {
    Cycle(c.asset, c.entryMs, c.exitMs, c.pnl, c.fees, c.volume, source)
  }

  /** The entries of one history body whose exit falls inside the window, in listing order. */
  function InWindow(w: Window, entries: seq<Closed>, source: Number): (r: seq<Cycle>)
    ensures forall c :: c in r <==> exists e :: e in entries && w.Contains(e.exitMs) && c == WithSource(e, source)
  {
    if entries == [] then []
    else
      var n := |entries| - 1;
      var init := InWindow(w, entries[..n], source);
      assert entries == entries[..n] + [entries[n]];
      if w.Contains(entries[n].exitMs) then init + [WithSource(entries[n], source)] else init
  }

  function Candidates(w: Window, sources: seq<Source>): seq<Cycle> {
    if sources == [] then []
    else
      var n := |sources| - 1;
      Candidates(w, sources[..n]) + InWindow(w, sources[n].body.history, sources[n].index)
  }

  function Identities(cs: seq<Cycle>): set<Identity> { set c | c in cs :: IdentityOf(c) }

  /** Each identity once, as first listed. */
  function Dedupe(cs: seq<Cycle>): (r: seq<Cycle>)
    ensures Identities(r) == Identities(cs)
  {
    if cs == [] then []
    else
      var n := |cs| - 1;
      var init := Dedupe(cs[..n]);
      assert cs == cs[..n] + [cs[n]];
      assert Identities(cs) == Identities(cs[..n]) + {IdentityOf(cs[n])};
      if IdentityOf(cs[n]) in Identities(init) then init
      else
        assert Identities(init + [cs[n]]) == Identities(init) + {IdentityOf(cs[n])};
        init + [cs[n]]
  }

  /** The string order of the runtime's locale, as a strict total order on asset keys. */
  ghost predicate Collation(before: (Text, Text) -> bool) {
    && Sorting.StrictOrder(before)
    && forall x, y :: x != y ==> before(x, y) || before(y, x)
  }

  /** The sort reads a missing entry date as the epoch. */
  function EntryKey(c: Cycle): real { if c.entryMs.Some? then c.entryMs.value else 0.0 }

  predicate CycleLess(before: (Text, Text) -> bool, a: Cycle, b: Cycle) {
    a.exitMs < b.exitMs
    || (a.exitMs == b.exitMs
        && (EntryKey(a) < EntryKey(b) || (EntryKey(a) == EntryKey(b) && before(a.asset, b.asset))))
  }

  function Order(before: (Text, Text) -> bool): (Cycle, Cycle) -> bool {
    (a, b) => CycleLess(before, a, b)
  }

  function ClosedCycles(before: (Text, Text) -> bool, w: Window, history: seq<Source>): seq<Cycle> {
    Sorting.Sort(Order(before), Dedupe(Candidates(w, history)))
  }

  method CollectCycles(before: (Text, Text) -> bool, w: Window, history: seq<Source>) returns (cycles: seq<Cycle>)
    ensures cycles == ClosedCycles(before, w, history)
  {
    var seen: set<Identity> := {};
    cycles := [];
    for i := 0 to |history|
      invariant cycles == Dedupe(Candidates(w, history[..i])) && seen == Identities(cycles)
    {
      var source := history[i];
      var entries := source.body.history;
      ghost var earlier := Candidates(w, history[..i]);
      assert earlier + [] == earlier;
      for j := 0 to |entries|
        invariant cycles == Dedupe(earlier + InWindow(w, entries[..j], source.index)) && seen == Identities(cycles)
      {
        ghost var listed := earlier + InWindow(w, entries[..j], source.index);
        assert entries[..j + 1][..j] == entries[..j];
        if w.Contains(entries[j].exitMs) {
          var cycle := WithSource(entries[j], source.index);
          assert earlier + InWindow(w, entries[..j + 1], source.index) == listed + [cycle];
          assert (listed + [cycle])[..|listed|] == listed;
          if IdentityOf(cycle) !in seen {
            assert Identities(cycles + [cycle]) == Identities(cycles) + {IdentityOf(cycle)};
            seen := seen + {IdentityOf(cycle)};
            cycles := cycles + [cycle];
          }
        }
      }
      assert entries[..|entries|] == entries;
      assert history[..i + 1][..i] == history[..i];
    }
    assert history[..|history|] == history;
    cycles := Sorting.Sort(Order(before), cycles);
  }

  // The walk over the cycles. Each quantity is a function of how many cycles have been walked.

  /** The sum of the first `n` terms. */
  function Sum(s: seq<real>, n: nat): real
    requires n <= |s|
  {
    if n == 0 then 0.0 else Sum(s, n - 1) + s[n - 1]
  }

  function Max(a: real, b: real): real { if a < b then b else a }

  /** The highest running total of the first `n` terms; the empty run counts as zero. */
  function Peak(p: seq<real>, n: nat): real
    requires n <= |p|
  {
    if n == 0 then 0.0 else Max(Peak(p, n - 1), Sum(p, n))
  }

  function Drawdown(p: seq<real>, n: nat): real
    requires n <= |p|
  {
    if n == 0 then 0.0 else Max(Drawdown(p, n - 1), Peak(p, n) - Sum(p, n))
  }

  lemma {:induction false} PeakIsHighest(p: seq<real>, n: nat)
    requires n <= |p|
    ensures forall i :: 0 <= i <= n ==> Sum(p, i) <= Peak(p, n)
    ensures exists i :: 0 <= i <= n && Sum(p, i) == Peak(p, n)
  {
    if n == 0 {
      assert Sum(p, 0) == Peak(p, 0);
    } else {
      PeakIsHighest(p, n - 1);
      if Peak(p, n - 1) < Sum(p, n) {
        assert Sum(p, n) == Peak(p, n);
      } else {
        var i :| 0 <= i <= n - 1 && Sum(p, i) == Peak(p, n - 1);
        assert Sum(p, i) == Peak(p, n);
      }
    }
  }

  lemma {:induction false} DrawdownAttained(p: seq<real>, n: nat) returns (i: nat, j: nat)
    requires n <= |p|
    ensures i <= j <= n && Sum(p, i) - Sum(p, j) == Drawdown(p, n)
  {
    if n == 0 {
      i, j := 0, 0;
    } else if Drawdown(p, n - 1) < Peak(p, n) - Sum(p, n) {
      PeakIsHighest(p, n);
      i, j :| 0 <= i <= n && Sum(p, i) == Peak(p, n) && j == n;
    } else {
      i, j := DrawdownAttained(p, n - 1);
    }
  }

  lemma {:induction false} DrawdownBounds(p: seq<real>, n: nat, i: nat, j: nat)
    requires i <= j <= n <= |p|
    ensures Sum(p, i) - Sum(p, j) <= Drawdown(p, n)
  {
    if j == n {
      PeakIsHighest(p, n);
      assert n == 0 ==> i == 0;
    } else {
      DrawdownBounds(p, n - 1, i, j);
    }
  }

  /** The one-pass drawdown is the largest fall of the running total from any point to any later
      one, the start included, and some fall is that large. */
  lemma {:induction false} DrawdownIsLargestFall(p: seq<real>, n: nat)
    requires n <= |p|
    ensures forall i, j :: 0 <= i <= j <= n ==> Sum(p, i) - Sum(p, j) <= Drawdown(p, n)
    ensures exists i, j :: 0 <= i <= j <= n && Sum(p, i) - Sum(p, j) == Drawdown(p, n)
  {
    var i, j := DrawdownAttained(p, n);
    forall i, j | 0 <= i <= j <= n
      ensures Sum(p, i) - Sum(p, j) <= Drawdown(p, n)
    {
      DrawdownBounds(p, n, i, j);
    }
  }

  function Pnls(cs: seq<Cycle>): (r: seq<real>)
    ensures |r| == |cs| && forall i :: 0 <= i < |cs| ==> r[i] == cs[i].pnl
  {
    seq(|cs|, i requires 0 <= i < |cs| => cs[i].pnl)
  }

  function Volumes(cs: seq<Cycle>): (r: seq<real>)
    ensures |r| == |cs| && forall i :: 0 <= i < |cs| ==> r[i] == cs[i].volume
  {
    seq(|cs|, i requires 0 <= i < |cs| => cs[i].volume)
  }

  function Fees(cs: seq<Cycle>): (r: seq<real>)
    ensures |r| == |cs| && forall i :: 0 <= i < |cs| ==> r[i] == cs[i].fees
  {
    seq(|cs|, i requires 0 <= i < |cs| => cs[i].fees)
  }

  function Wins(cs: seq<Cycle>, n: nat): (w: nat)
    requires n <= |cs|
    ensures w <= n
  {
    if n == 0 then 0 else Wins(cs, n - 1) + (if cs[n - 1].pnl > 0.0 then 1 else 0)
  }

  predicate Held(c: Cycle) { c.entryMs.Some? && c.exitMs >= c.entryMs.value }

  function HoldingDays(cs: seq<Cycle>, n: nat): seq<real>
    requires n <= |cs|
  {
    if n == 0 then []
    else if Held(cs[n - 1]) then
      HoldingDays(cs, n - 1) + [(cs[n - 1].exitMs - cs[n - 1].entryMs.value) / MS_PER_DAY]
    else HoldingDays(cs, n - 1)
  }

  /** The traded assets in the order they first occur: the keys of the source's volume map. */
  function AssetKeys(cs: seq<Cycle>, n: nat): (r: seq<Text>)
    requires n <= |cs|
    ensures forall i :: 0 <= i < n ==> cs[i].asset in r
    ensures forall i, j :: 0 <= i < j < |r| ==> r[i] != r[j]
  {
    if n == 0 then []
    else
      var before := AssetKeys(cs, n - 1);
      if cs[n - 1].asset in before then before else before + [cs[n - 1].asset]
  }

  function AssetVolume(cs: seq<Cycle>, n: nat, asset: Text): real
    requires n <= |cs|
  {
    if n == 0 then 0.0
    else AssetVolume(cs, n - 1, asset) + if cs[n - 1].asset == asset then cs[n - 1].volume else 0.0
  }

  lemma {:induction false} NoVolume(cs: seq<Cycle>, n: nat, a: Text)
    requires n <= |cs| && a !in AssetKeys(cs, n)
    ensures AssetVolume(cs, n, a) == 0.0
  {
    if n > 0 {
      assert cs[n - 1].asset in AssetKeys(cs, n);
      NoVolume(cs, n - 1, a);
    }
  }

  /** The per-asset volumes: the source's `volumeByAsset`, keys in insertion order. */
  datatype VolumeMap = VolumeMap(keys: seq<Text>, volumes: map<Text, real>) {
    ghost predicate Of(cs: seq<Cycle>, n: nat)
      requires n <= |cs|
    {
      && keys == AssetKeys(cs, n)
      && (forall a :: a in volumes <==> a in keys)
      && forall a :: a in volumes ==> volumes[a] == AssetVolume(cs, n, a)
    }
  }

  method AddVolume(m: VolumeMap, ghost cs: seq<Cycle>, ghost n: nat, c: Cycle) returns (r: VolumeMap)
    requires n < |cs| && m.Of(cs, n) && c == cs[n]
    ensures r.Of(cs, n + 1)
  {
    if c.asset in m.volumes {
      r := VolumeMap(m.keys, m.volumes[c.asset := m.volumes[c.asset] + c.volume]);
    } else {
      NoVolume(cs, n, c.asset);
      r := VolumeMap(m.keys + [c.asset], m.volumes[c.asset := c.volume]);
    }
  }

  /** Running sums. */
  datatype Totals = Totals(pnl: real, volume: real, fees: real, wins: nat) {
    ghost predicate Of(cs: seq<Cycle>, n: nat)
      requires n <= |cs|
    {
      && pnl == Sum(Pnls(cs), n) && volume == Sum(Volumes(cs), n) && fees == Sum(Fees(cs), n)
      && wins == Wins(cs, n)
    }

    function Add(c: Cycle): Totals {
      Totals(pnl + c.pnl, volume + c.volume, fees + c.fees, if c.pnl > 0.0 then wins + 1 else wins)
    }
  }

  lemma {:induction false} TotalsCorrect(t: Totals, cs: seq<Cycle>, n: nat)
    requires n < |cs| && t.Of(cs, n)
    ensures t.Add(cs[n]).Of(cs, n + 1)
  {
  }

  /** The equity curve: running total, best point, worst fall. */
  datatype Curve = Curve(cumulative: real, peak: real, drawdown: real) {
    ghost predicate Of(p: seq<real>, n: nat)
      requires n <= |p|
    {
      cumulative == Sum(p, n) && peak == Peak(p, n) && drawdown == Drawdown(p, n)
    }
  }

  method AdvanceCurve(curve: Curve, ghost p: seq<real>, ghost n: nat, pnl: real) returns (r: Curve)
    requires n < |p| && curve.Of(p, n) && pnl == p[n]
    ensures r.Of(p, n + 1)
  {
    var cumulative := curve.cumulative + pnl;
    var peak := curve.peak;
    if cumulative > peak {
      peak := cumulative;
    }
    var fall := peak - cumulative;
    var drawdown := curve.drawdown;
    if fall > drawdown {
      drawdown := fall;
    }
    r := Curve(cumulative, peak, drawdown);
  }

  datatype Walk = Walk(totals: Totals, curve: Curve, holding: seq<real>, byAsset: VolumeMap)

  ghost predicate WalkOf(w: Walk, cs: seq<Cycle>, n: nat)
    requires n <= |cs|
  {
    w.totals.Of(cs, n) && w.curve.Of(Pnls(cs), n) && w.holding == HoldingDays(cs, n) && w.byAsset.Of(cs, n)
  }

  /** The loop body of the walk. */
  method StepWalk(w: Walk, cs: seq<Cycle>, i: nat) returns (r: Walk)
    requires i < |cs| && WalkOf(w, cs, i)
    ensures WalkOf(r, cs, i + 1)
  {
    var c := cs[i];
    TotalsCorrect(w.totals, cs, i);
    var curve := AdvanceCurve(w.curve, Pnls(cs), i, c.pnl);
    var byAsset := AddVolume(w.byAsset, cs, i, c);
    var holding := w.holding;
    if Held(c) {
      holding := holding + [(c.exitMs - c.entryMs.value) / MS_PER_DAY];
    }
    r := Walk(w.totals.Add(c), curve, holding, byAsset);
  }

  method WalkCycles(cs: seq<Cycle>) returns (walk: Walk)
    ensures WalkOf(walk, cs, |cs|)
  {
    walk := Walk(Totals(0.0, 0.0, 0.0, 0), Curve(0.0, 0.0, 0.0), [], VolumeMap([], map[]));
    for i := 0 to |cs|
      invariant WalkOf(walk, cs, i)
    {
      walk := StepWalk(walk, cs, i);
    }
  }

  // What the walk counts

  function Won(): Cycle -> bool { (c: Cycle) => c.pnl > 0.0 }

  /** Cycles with an entry date not after the exit. */
  function Dated(): Cycle -> bool { (c: Cycle) => c.entryMs.Some? && c.entryMs.value <= c.exitMs }

  /** Days between entry and exit. */
  function Days(c: Cycle): real
    requires c.entryMs.Some?
  {
    (c.exitMs - c.entryMs.value) / 86_400_000.0
  }

  function DaysOf(cs: seq<Cycle>): (r: seq<real>)
    requires forall i :: 0 <= i < |cs| ==> cs[i].entryMs.Some?
    ensures |r| == |cs| && forall i :: 0 <= i < |r| ==> r[i] == Days(cs[i])
  {
    seq(|cs|, i requires 0 <= i < |cs| => Days(cs[i]))
  }

  /** Wins are the cycles that made money. */
  lemma {:induction false} WinsCounted(cs: seq<Cycle>, n: nat)
    requires n <= |cs|
    ensures Wins(cs, n) == |Lists.Where(Won(), cs[..n])|
  {
    if n > 0 {
      hide Lists.Where, Wins;
      WinsCounted(cs, n - 1);
      Lists.CountStep(Won(), cs, n - 1);
      WinsStep(cs, n - 1);
    }
  }

  lemma {:induction false} WinsStep(cs: seq<Cycle>, n: nat)
    requires n < |cs|
    ensures Wins(cs, n + 1) == Wins(cs, n) + if Won()(cs[n]) then 1 else 0
  {
  }

  lemma {:induction false} DaysStep(a: seq<Cycle>, c: Cycle)
    requires (forall i :: 0 <= i < |a| ==> a[i].entryMs.Some?) && c.entryMs.Some?
    ensures forall i :: 0 <= i < |a + [c]| ==> (a + [c])[i].entryMs.Some?
    ensures DaysOf(a + [c]) == DaysOf(a) + [Days(c)]
  {
    hide Days;
  }

  lemma {:induction false} HoldingStep(cs: seq<Cycle>, n: nat)
    requires n < |cs|
    ensures Dated()(cs[n]) ==> HoldingDays(cs, n + 1) == HoldingDays(cs, n) + [Days(cs[n])]
    ensures !Dated()(cs[n]) ==> HoldingDays(cs, n + 1) == HoldingDays(cs, n)
  {
  }

  /** Holding times are the days between entry and exit of the cycles that have an entry before their exit. */
  lemma {:induction false} DaysListed(cs: seq<Cycle>, n: nat)
    requires n <= |cs|
    ensures HoldingDays(cs, n) == DaysOf(Lists.Where(Dated(), cs[..n]))
  {
    if n > 0 {
      hide Lists.Where, DaysOf, Days, HoldingDays;
      DaysListed(cs, n - 1);
      Lists.WhereStep(Dated(), cs, n - 1);
      HoldingStep(cs, n - 1);
      var held := Lists.Where(Dated(), cs[..n - 1]);
      if Dated()(cs[n - 1]) {
        DaysStep(held, cs[n - 1]);
      } else {
        assert held + [] == held;
      }
    }
  }

  lemma {:induction false} SumConcat(a: seq<real>, b: seq<real>, n: nat)
    requires n <= |b|
    ensures Sum(a + b, |a| + n) == Sum(a, |a|) + Sum(b, n)
  {
    if n == 0 {
      SumPrefix(a, b, |a|);
    } else {
      SumConcat(a, b, n - 1);
      assert (a + b)[|a| + n - 1] == b[n - 1];
    }
  }

  lemma {:induction false} SumPrefix(a: seq<real>, b: seq<real>, n: nat)
    requires n <= |a|
    ensures Sum(a + b, n) == Sum(a, n)
  {
    if n > 0 {
      SumPrefix(a, b, n - 1);
    }
  }
}
