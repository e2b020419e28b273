/** The re-derivation check a grantee runs (packages/evidence/src/verify.ts). */
module Verify {
  import opened Utf
  import opened Numbers
  import opened Json
  import opened Canonical
  import opened Access
  import opened Derive
  import opened Claims
  import opened Reading

  const K_ACTUAL := Ascii("actual")
  const K_CLAIMS := Ascii("claims")
  const K_DERIVATION := Ascii("derivationId")
  const K_DIGEST := Ascii("digest")
  const K_ID := Ascii("id")
  const K_OP := Ascii("op")
  const K_PASSED := Ascii("passed")
  const K_SCHEMA := Ascii("schema")
  const K_SOURCES := Ascii("sources")
  const K_STATEMENT := Ascii("statement")
  const K_THRESHOLD := Ascii("threshold")
  const K_UNIT := Ascii("unit")

  const BUNDLE_SCHEMA := Ascii("zegel.bundle.v1")

  /** What a build of the verifier fixes: the runtime, the hash, the rule digest, the prose of each
      claim, and the claims it derives for a window whose dates do not both parse. */
  datatype Build = Build(
    env: Env, sha: Bytes -> Text, derivationId: Text, statement: ClaimId -> Text,
    undated: (Option<real>, Option<real>, seq<Source>) -> seq<Value>)

  // Claims as objects

  function Slug(id: ClaimId): Text {
    match id
    case RealizedPnl => Ascii("realized-pnl-usd")
    case ClosedCount => Ascii("closed-position-cycles")
    case WinRate => Ascii("win-rate")
    case MaxDrawdown => Ascii("max-drawdown-usd")
    case MedianHolding => Ascii("median-holding-period-days")
    case TradingCost => Ascii("trading-cost-ratio")
    case MevShare => Ascii("mev-fee-share")
    case RiskQuality => Ascii("risk-quality-ratio")
    case Concentration => Ascii("position-concentration")
    case WalletAge => Ascii("wallet-age-days")
  }

  /** Length and first letter of a slug. */
  function SlugShape(id: ClaimId): (nat, Unit) {
    match id
    case RealizedPnl => (16, 114) case ClosedCount => (22, 99) case WinRate => (8, 119)
    case MaxDrawdown => (16, 109) case MedianHolding => (26, 109) case TradingCost => (18, 116)
    case MevShare => (13, 109) case RiskQuality => (18, 114) case Concentration => (22, 112) case WalletAge => (15, 119)
  }

  lemma {:induction false} SlugHasShape(id: ClaimId)
    ensures Slug(id) != [] && (|Slug(id)|, Slug(id)[0]) == SlugShape(id)
  {
  }

  /** Claim ids are told apart by length and first letter alone. */
  lemma {:induction false} SlugInjective(a: ClaimId, b: ClaimId)
    requires Slug(a) == Slug(b)
    ensures a == b
  {
    SlugHasShape(a);
    SlugHasShape(b);
  }

  function OpText(op: Op): Text {
    match op
    case Gte => Ascii("gte")
    case Lte => Ascii("lte")
    case Eq => Ascii("eq")
    case Between => Ascii("between")
  }

  function UnitText(id: ClaimId): Text {
    match id
    case RealizedPnl | MaxDrawdown => Ascii("usd")
    case ClosedCount => Ascii("count")
    case MedianHolding | WalletAge => Ascii("days")
    case _ => Ascii("ratio")
  }

  /** Money is in dollars, what has six decimals is a ratio. */
  lemma {:induction false} UnitsStated(id: ClaimId)
    ensures id in {RealizedPnl, MaxDrawdown} <==> UnitText(id) == Ascii("usd")
    ensures id in {MedianHolding, WalletAge} <==> UnitText(id) == Ascii("days")
    ensures id == ClosedCount <==> UnitText(id) == Ascii("count")
    ensures Grid(id) == 6 <==> UnitText(id) == Ascii("ratio")
  {
    assert |Ascii("usd")| == 3 && |Ascii("days")| == 4 && Ascii("count")[0] == 99 && Ascii("ratio")[0] == 114;
  }

  function NumberValues(xs: seq<Number>): (r: seq<Value>)
    ensures |r| == |xs| && forall i :: 0 <= i < |r| ==> r[i] == Num(xs[i])
  {
    seq(|xs|, i requires 0 <= i < |xs| => Num(xs[i]))
  }

  function ClaimValue(b: Build, c: Claim): Value {
    Obj([
      Member(K_ID, Str(Slug(c.id))),
      Member(K_STATEMENT, Str(b.statement(c.id))),
      Member(K_OP, Str(OpText(OpOf(c.id)))),
      Member(K_THRESHOLD, Num(Scaled(ThresholdUnits(c.id), Grid(c.id)))),
      Member(K_UNIT, Str(UnitText(c.id))),
      Member(K_PASSED, Bool(c.passed)),
      Member(K_ACTUAL, Num(Scaled(c.actual, Grid(c.id)))),
      Member(K_SOURCES, Arr(NumberValues(c.sources)))
    ])
  }

  function ClaimValues(b: Build, cs: seq<Claim>): (r: seq<Value>)
    ensures |r| == |cs| && forall i :: 0 <= i < |r| ==> r[i] == ClaimValue(b, cs[i])
  {
    seq(|cs|, i requires 0 <= i < |cs| => ClaimValue(b, cs[i]))
  }

  // The check

  datatype Mismatch =
    | SchemaMismatch
    | DerivationMismatch
    | BodyThoughUnavailable(index: Value)
    | DigestMismatch(index: Value)
    | Absent(id: Value)
    | NotDerivable(id: Value)
    | FieldDiffers(id: Value, field: Text)

  datatype Verdict = Verdict(mismatches: seq<Mismatch>, recomputed: seq<Value>) {
    predicate Ok() { mismatches == [] }
  }

  /** The id a claim goes under in the maps; only its normal form matters for primitive ids. */
  function IdOf(c: Value): Value { Norm(Field(c, K_ID)) }

  /** The fields compared, in order. */
  function FieldAtIndex(i: nat): Text
    requires i < 7
  {
    if i == 0 then K_STATEMENT else if i == 1 then K_OP else if i == 2 then K_UNIT else if i == 3 then K_PASSED
    else if i == 4 then K_ACTUAL else if i == 5 then K_THRESHOLD else K_SOURCES
  }

  /** `actual[field] ?? null`, canonicalised: what the comparison is made on. */
  function FieldText(c: Value, k: Text): Option<Text> { Encode(Coalesce(Field(c, k), Null)) }

  /** A field that is missing compares as null. */
  lemma {:induction false} MissingIsNull(c: Value, k: Text)
    ensures FieldText(c, k) == if Field(c, k) == Undefined then Encode(Null) else Encode(Field(c, k))
  {
    hide Field, Encode;
  }

  predicate SameText(c: Value, d: Value, i: nat)
    requires i < 7
  {
    FieldText(c, FieldAtIndex(i)) == FieldText(d, FieldAtIndex(i))
  }

  /** What the check finds in one source. */
  function SourceFault(b: Build, s: Value): seq<Mismatch> {
    var body := Field(s, K_BODY);
    if Field(s, K_UNAVAILABLE) != Undefined then
      if body != Undefined then [BodyThoughUnavailable(Norm(Field(s, K_INDEX)))] else []
    else if body == Undefined then []
    else if Digest(b.sha, body) != Some(TextOf(Field(s, K_DIGEST))) then [DigestMismatch(Norm(Field(s, K_INDEX)))]
    else []
  }

  function SourceFaults(b: Build, ss: seq<Value>): (r: seq<seq<Mismatch>>)
    ensures |r| == |ss| && forall i :: 0 <= i < |r| ==> r[i] == SourceFault(b, ss[i])
  {
    seq(|ss|, i requires 0 <= i < |ss| => SourceFault(b, ss[i]))
  }

  /** The claim a map filled from the first `n` claims holds under `id`: the last one wins. */
  function StatedFor(cs: seq<Value>, n: nat, id: Value): (r: Option<Value>)
    requires n <= |cs|
    ensures r.Some? ==> IdOf(r.value) == id
  {
    if n == 0 then None
    else if IdOf(cs[n - 1]) == id then Some(cs[n - 1])
    else StatedFor(cs, n - 1, id)
  }

  /** The entry of the whole map. */
  function Stated(cs: seq<Value>, id: Value): (r: Option<Value>)
    ensures r.Some? ==> IdOf(r.value) == id
  {
    StatedFor(cs, |cs|, id)
  }

  /** Ids in the order they first occur, as the map iterates over them. */
  function IdsOf(cs: seq<Value>, n: nat): (r: seq<Value>)
    requires n <= |cs|
    ensures forall id :: id in r <==> StatedFor(cs, n, id).Some?
  {
    if n == 0 then []
    else
      var r := IdsOf(cs, n - 1);
      if IdOf(cs[n - 1]) in r then r else r + [IdOf(cs[n - 1])]
  }

  /** Every id once, in the order they come up. */
  lemma {:induction false} IdsOnce(cs: seq<Value>, n: nat)
    requires n <= |cs|
    ensures forall i, j :: 0 <= i < j < |IdsOf(cs, n)| ==> IdsOf(cs, n)[i] != IdsOf(cs, n)[j]
    ensures forall m :: 0 <= m <= n ==> IdsOf(cs, m) <= IdsOf(cs, n)
  {
    hide IdOf;
    if n > 0 {
      IdsOnce(cs, n - 1);
    }
  }

  function AbsentFaults(cs: seq<Value>, ids: seq<Value>): (r: seq<seq<Mismatch>>)
    ensures |r| == |ids|
    ensures forall i :: 0 <= i < |r| ==> r[i] == if Stated(cs, ids[i]).None? then [Absent(ids[i])] else []
  {
    seq(|ids|, i requires 0 <= i < |ids| => if Stated(cs, ids[i]).None? then [Absent(ids[i])] else [])
  }

  function ExtraFaults(ds: seq<Value>, ids: seq<Value>): (r: seq<seq<Mismatch>>)
    ensures |r| == |ids|
    ensures forall i :: 0 <= i < |r| ==> r[i] == if Stated(ds, ids[i]).None? then [NotDerivable(ids[i])] else []
  {
    seq(|ids|, i requires 0 <= i < |ids| => if Stated(ds, ids[i]).None? then [NotDerivable(ids[i])] else [])
  }

  function FieldFaults(c: Value, d: Value, id: Value): (r: seq<seq<Mismatch>>)
    ensures |r| == 7
    ensures forall i :: 0 <= i < 7 ==> r[i] == if SameText(c, d, i) then [] else [FieldDiffers(id, FieldAtIndex(i))]
  {
    seq(7, i requires 0 <= i < 7 => if SameText(c, d, i) then [] else [FieldDiffers(id, FieldAtIndex(i))])
  }

  function DifferingFields(c: Value, d: Value, id: Value): seq<Mismatch> {
    var xs := FieldFaults(c, d, id);
    Flat(xs, |xs|)
  }

  /** How the claim stated under `id` differs from the derived one. */
  function ClaimFault(cs: seq<Value>, ds: seq<Value>, id: Value): seq<Mismatch> {
    match (Stated(cs, id), Stated(ds, id))
    case (Some(c), Some(d)) => DifferingFields(c, d, id)
    case _ => []
  }

  function ClaimFaults(cs: seq<Value>, ds: seq<Value>, ids: seq<Value>): (r: seq<seq<Mismatch>>)
    ensures |r| == |ids| && forall i :: 0 <= i < |r| ==> r[i] == ClaimFault(cs, ds, ids[i])
  {
    seq(|ids|, i requires 0 <= i < |ids| => ClaimFault(cs, ds, ids[i]))
  }

  /** The lists of mismatches one after the other. */
  function Flat<T>(xs: seq<seq<T>>, n: nat): seq<T>
    requires n <= |xs|
  {
    if n == 0 then [] else Flat(xs, n - 1) + xs[n - 1]
  }

  /** What the comparison of stated with derived claims finds. */
  function Differences(cs: seq<Value>, ds: seq<Value>): seq<Mismatch> {
    var derived, stated := IdsOf(ds, |ds|), IdsOf(cs, |cs|);
    Flat(AbsentFaults(cs, derived), |derived|)
    + (Flat(ExtraFaults(ds, stated), |stated|) + Flat(ClaimFaults(cs, ds, derived), |derived|))
  }

  /** The claims of a bundle computed afresh from its sources. */
  function Recomputed(b: Build, w: Window, bundle: Value): seq<Value> {
    ClaimValues(b, ClaimsOf(MetricsOf(b.env.before, w, ReadSources(b.env, Items(Field(bundle, K_SOURCES))))))
  }

  function SchemaFault(bundle: Value): seq<Mismatch> {
    if Field(bundle, K_SCHEMA) == Str(BUNDLE_SCHEMA) then [] else [SchemaMismatch]
  }

  /** The verdict, when `ds` are the claims derived. */
  function VerdictWith(b: Build, bundle: Value, ds: seq<Value>): Verdict {
    if TextOf(Field(bundle, K_DERIVATION)) != b.derivationId then
      Verdict(SchemaFault(bundle) + [DerivationMismatch], [])
    else
      var ss := Items(Field(bundle, K_SOURCES));
      Verdict(SchemaFault(bundle)
              + (Flat(SourceFaults(b, ss), |ss|) + Differences(Items(Field(bundle, K_CLAIMS)), ds)), ds)
  }

  function VerdictOf(b: Build, w: Window, bundle: Value): Verdict {
    VerdictWith(b, bundle, Recomputed(b, w, bundle))
  }

  /** A map from claim ids, with its keys in insertion order. */
  ghost predicate Indexes(m: map<Value, Value>, cs: seq<Value>, n: nat)
    requires n <= |cs|
  {
    forall id :: StatedFor(cs, n, id) == if id in m then Some(m[id]) else None
  }

  method IndexClaims(cs: seq<Value>) returns (m: map<Value, Value>, ids: seq<Value>)
    ensures Indexes(m, cs, |cs|) && ids == IdsOf(cs, |cs|)
  {
    hide IdOf;
    m, ids := map[], [];
    for i := 0 to |cs|
      invariant Indexes(m, cs, i) && ids == IdsOf(cs, i)
    {
      var id := IdOf(cs[i]);
      if id !in ids {
        ids := ids + [id];
      }
      m := m[id := cs[i]];
    }
  }

  method CheckSource(b: Build, s: Value) returns (faults: seq<Mismatch>)
    ensures faults == SourceFault(b, s)
  {
    faults := [];
    var body, index := Field(s, K_BODY), Norm(Field(s, K_INDEX));
    if Field(s, K_UNAVAILABLE) != Undefined {
      if body != Undefined {
        faults := [BodyThoughUnavailable(index)];
      }
    } else if body != Undefined {
      var digest := Digest(b.sha, body);
      if digest != Some(TextOf(Field(s, K_DIGEST))) {
        faults := [DigestMismatch(index)];
      }
    }
  }

  method CheckSources(b: Build, ss: seq<Value>) returns (faults: seq<Mismatch>)
    ensures faults == Flat(SourceFaults(b, ss), |ss|)
  {
    hide SourceFault;
    faults := [];
    for i := 0 to |ss|
      invariant faults == Flat(SourceFaults(b, ss), i)
    {
      var more := CheckSource(b, ss[i]);
      faults := faults + more;
    }
  }

  method CheckFields(c: Value, d: Value, id: Value) returns (faults: seq<Mismatch>)
    ensures faults == DifferingFields(c, d, id)
  {
    hide FieldText, FieldAtIndex;
    faults := [];
    ghost var xs := FieldFaults(c, d, id);
    for i := 0 to 7
      invariant faults == Flat(xs, i)
    {
      if FieldText(c, FieldAtIndex(i)) != FieldText(d, FieldAtIndex(i)) {
        faults := faults + [FieldDiffers(id, FieldAtIndex(i))];
      }
    }
  }

  method CheckAbsent(ids: seq<Value>, stated: map<Value, Value>, ghost cs: seq<Value>) returns (faults: seq<Mismatch>)
    requires Indexes(stated, cs, |cs|)
    ensures faults == Flat(AbsentFaults(cs, ids), |ids|)
  {
    faults := [];
    for i := 0 to |ids|
      invariant faults == Flat(AbsentFaults(cs, ids), i)
    {
      if ids[i] !in stated {
        faults := faults + [Absent(ids[i])];
      }
    }
  }

  method CheckExtra(ids: seq<Value>, derived: map<Value, Value>, ghost ds: seq<Value>) returns (faults: seq<Mismatch>)
    requires Indexes(derived, ds, |ds|)
    ensures faults == Flat(ExtraFaults(ds, ids), |ids|)
  {
    faults := [];
    for i := 0 to |ids|
      invariant faults == Flat(ExtraFaults(ds, ids), i)
    {
      if ids[i] !in derived {
        faults := faults + [NotDerivable(ids[i])];
      }
    }
  }

  method CheckDiffer(ids: seq<Value>, stated: map<Value, Value>, derived: map<Value, Value>,
                     ghost cs: seq<Value>, ghost ds: seq<Value>)
    returns (faults: seq<Mismatch>)
    requires Indexes(stated, cs, |cs|) && Indexes(derived, ds, |ds|)
    ensures faults == Flat(ClaimFaults(cs, ds, ids), |ids|)
  {
    faults := [];
    for i := 0 to |ids|
      invariant faults == Flat(ClaimFaults(cs, ds, ids), i)
    {
      if ids[i] in stated && ids[i] in derived {
        var more := CheckFields(stated[ids[i]], derived[ids[i]], ids[i]);
        faults := faults + more;
      }
    }
  }

  method Compare(cs: seq<Value>, ds: seq<Value>) returns (faults: seq<Mismatch>)
    ensures faults == Differences(cs, ds)
  {
    var stated, statedIds := IndexClaims(cs);
    var derived, derivedIds := IndexClaims(ds);
    var absent := CheckAbsent(derivedIds, stated, cs);
    var extra := CheckExtra(statedIds, derived, ds);
    var differ := CheckDiffer(derivedIds, stated, derived, cs, ds);
    faults := absent + (extra + differ);
  }

  method VerifyClaims(b: Build, w: Window, bundle: Value) returns (v: Verdict)
    ensures v == VerdictOf(b, w, bundle)
  {
    var mismatches := SchemaFault(bundle);
    var same := DigestsEqual(TextOf(Field(bundle, K_DERIVATION)), b.derivationId);
    if !same {
      return Verdict(mismatches + [DerivationMismatch], []);
    }
    var broken := CheckSources(b, Items(Field(bundle, K_SOURCES)));
    var claims := DeriveClaims(b.env.before, w, ReadSources(b.env, Items(Field(bundle, K_SOURCES))));
    var recomputed := ClaimValues(b, claims);
    var faults := Compare(Items(Field(bundle, K_CLAIMS)), recomputed);
    v := Verdict(mismatches + (broken + faults), recomputed);
  }
}
