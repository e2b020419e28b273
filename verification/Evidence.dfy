/** Building an evidence bundle from recorded responses (packages/evidence/src/collect.ts), and
    why every bundle built this way passes the check. */
module Evidence {
  import opened Utf
  import opened Numbers
  import opened Json
  import opened Canonical
  import opened Access
  import opened Derive
  import opened Claims
  import opened Reading
  import opened Verify
  import opened VerifyLaws
  import opened VerifySealed
  import DeriveOrder
  import Envelope

  /** What one request came back with. */
  datatype Outcome = Fetched(body: Value) | Failed(reason: Text, status: Option<Number>)

  datatype Collected = Collected(path: Text, params: Value, fetchedAt: Text, outcome: Outcome)

  const K_FETCHED := Ascii("fetchedAt")
  const K_REASON := Ascii("reason")
  const K_STATUS := Ascii("status")
  const K_REFERENCE := Ascii("referenceId")
  const K_SUBJECT := Ascii("subject")
  const K_DERIVED_AT := Ascii("derivedAt")
  const K_CONTROL := Ascii("controlProof")

  const GET := Ascii("GET ")

  function Unavailable(reason: Text, status: Option<Number>): Value {
    Obj([Member(K_REASON, Str(reason))] + if status.Some? then [Member(K_STATUS, Num(status.value))] else [])
  }

  function SourceValue(index: nat, r: Collected, digest: Text, last: Member): Value {
    Obj([
      Member(K_INDEX, Num(Scaled(index, 0))),
      Member(K_ENDPOINT, Str(GET + r.path)),
      Member(K_PARAMS, r.params),
      Member(K_FETCHED, Str(r.fetchedAt)),
      Member(K_DIGEST, Str(digest)),
      last
    ])
  }

  /** `toSource`; `None` when the body cannot be canonicalised. */
  function ToSource(sha: Bytes -> Text, r: Collected, index: nat): Option<Value> {
    match r.outcome
    case Failed(reason, status) =>
      (match Digest(sha, Null)
       case None => None
       case Some(d) => Some(SourceValue(index, r, d, Member(K_UNAVAILABLE, Unavailable(reason, status)))))
    case Fetched(body) =>
      match Digest(sha, body)
      case None => None
      case Some(d) => Some(SourceValue(index, r, d, Member(K_BODY, body)))
  }

  function ToSources(sha: Bytes -> Text, rs: seq<Collected>, n: nat): Option<seq<Value>>
    requires n <= |rs|
  {
    if n == 0 then Some([])
    else
      match (ToSources(sha, rs, n - 1), ToSource(sha, rs[n - 1], n - 1))
      case (Some(init), Some(last)) => Some(init + [last])
      case _ => None
  }

  /** What a bundle states besides sources and claims. */
  datatype Header = Header(referenceId: Text, subject: Value, window: Value, derivedAt: Text, control: Value)

  function BundleValue(b: Build, h: Header, sources: seq<Value>, claims: seq<Value>): Value {
    Obj([
      Member(K_SCHEMA, Str(BUNDLE_SCHEMA)),
      Member(K_REFERENCE, Str(h.referenceId)),
      Member(K_SUBJECT, h.subject),
      Member(K_WINDOW, h.window),
      Member(K_SOURCES, Arr(sources)),
      Member(K_CLAIMS, Arr(claims)),
      Member(K_DERIVED_AT, Str(h.derivedAt)),
      Member(K_DERIVATION, Str(b.derivationId)),
      Member(K_CONTROL, h.control)
    ])
  }

  /** The bundle `buildEvidence` returns for the collected responses: claims derived from a draft
      that carries none. */
  function BuildEvidence(b: Build, w: Window, h: Header, rs: seq<Collected>): Option<Value> {
    match ToSources(b.sha, rs, |rs|)
    case None => None
    case Some(sources) => Some(BundleValue(b, h, sources, Recomputed(b, w, BundleValue(b, h, sources, []))))
  }

  lemma {:induction false} SourceKeysDistinct(ms: seq<Member>)
    requires |ms| == 6 && ms[0].key == K_INDEX && ms[1].key == K_ENDPOINT && ms[2].key == K_PARAMS
    requires ms[3].key == K_FETCHED && ms[4].key == K_DIGEST && (ms[5].key == K_BODY || ms[5].key == K_UNAVAILABLE)
    ensures DistinctKeys(ms)
    ensures forall i :: 0 <= i < 5 ==> ms[i].key != K_BODY && ms[i].key != K_UNAVAILABLE
    ensures K_BODY != K_UNAVAILABLE
  {
    assert |K_INDEX| == 5 && |K_ENDPOINT| == 8 && |K_PARAMS| == 6 && |K_FETCHED| == 9 && |K_DIGEST| == 6;
    assert |K_BODY| == 4 && |K_UNAVAILABLE| == 11 && K_PARAMS[0] != K_DIGEST[0];
  }

  lemma {:induction false} SourceFields(index: nat, r: Collected, digest: Text, last: Member)
    requires last.key == K_BODY || last.key == K_UNAVAILABLE
    ensures var s := SourceValue(index, r, digest, last);
      && Field(s, K_INDEX) == Num(Scaled(index, 0)) && Field(s, K_ENDPOINT) == Str(GET + r.path)
      && Field(s, K_PARAMS) == r.params && Field(s, K_FETCHED) == Str(r.fetchedAt) && Field(s, K_DIGEST) == Str(digest)
      && Field(s, last.key) == last.value
      && (last.key == K_BODY ==> Field(s, K_UNAVAILABLE) == Undefined)
      && (last.key == K_UNAVAILABLE ==> Field(s, K_BODY) == Undefined)
  {
    hide Field, Scaled;
    var ms := SourceValue(index, r, digest, last).members;
    SourceKeysDistinct(ms);
    FieldAt(ms, 0);
    FieldAt(ms, 1);
    FieldAt(ms, 2);
    FieldAt(ms, 3);
    FieldAt(ms, 4);
    FieldAt(ms, 5);
    MissingField(ms, if last.key == K_BODY then K_UNAVAILABLE else K_BODY);
  }

  /** What a built source states: its place in the list, the endpoint, parameters and date of the request,
      the digest of the body, and the body or why there is none. */
  predicate Reports(sha: Bytes -> Text, r: Collected, index: nat, s: Value) {
    Requests(s, r, index) && Brings(sha, s, r.outcome)
  }

  predicate Requests(s: Value, r: Collected, index: nat) {
    && Field(s, Ascii("index")).Num? && ToReal(Field(s, Ascii("index")).x) == index as real
    && Field(s, Ascii("endpoint")) == Str(Ascii("GET ") + r.path)
    && Field(s, Ascii("params")) == r.params && Field(s, Ascii("fetchedAt")) == Str(r.fetchedAt)
  }

  predicate Brings(sha: Bytes -> Text, s: Value, outcome: Outcome) {
    match outcome
    case Fetched(body) =>
      && Field(s, Ascii("body")) == body && Field(s, Ascii("unavailable")) == Undefined
      && Digest(sha, body) == Some(TextOf(Field(s, Ascii("digest"))))
    case Failed(reason, status) =>
      && Field(s, Ascii("body")) == Undefined && Digest(sha, Null) == Some(TextOf(Field(s, Ascii("digest"))))
      && Excuses(Field(s, Ascii("unavailable")), reason, status)
  }

  predicate Excuses(v: Value, reason: Text, status: Option<Number>) {
    && Field(v, Ascii("reason")) == Str(reason)
    && Field(v, Ascii("status")) == if status.Some? then Num(status.value) else Undefined
  }

  lemma {:induction false} SourceStates(sha: Bytes -> Text, r: Collected, index: nat)
    requires ToSource(sha, r, index).Some?
    ensures Reports(sha, r, index, ToSource(sha, r, index).value)
  {
    ScaledValue(index, 0);
    WholeUnit(index);
    hide Field, SourceValue, Scaled, ToReal, Digest, Excuses;
    match r.outcome
    case Failed(reason, status) =>
      UnavailableStates(reason, status);
      SourceFields(index, r, Digest(sha, Null).value, Member(K_UNAVAILABLE, Unavailable(reason, status)));
    case Fetched(body) =>
      SourceFields(index, r, Digest(sha, body).value, Member(K_BODY, body));
  }

  lemma {:induction false} UnavailableStates(reason: Text, status: Option<Number>)
    ensures Excuses(Unavailable(reason, status), reason, status)
  {
    assert K_REASON[0] == 114 && K_STATUS[0] == 115;
    var ms := Unavailable(reason, status).members;
    FieldAt(ms, 0);
    if status.Some? {
      FieldAt(ms, 1);
    } else {
      MissingField(ms, K_STATUS);
    }
  }

  lemma {:induction false} MissingField(ms: seq<Member>, k: Text)
    requires forall i :: 0 <= i < |ms| ==> ms[i].key != k
    ensures Field(Obj(ms), k) == Undefined
  {
    if ms != [] {
      MissingField(ms[1..], k);
    }
  }

  lemma {:induction false} SourceIntact(b: Build, r: Collected, index: nat)
    requires ToSource(b.sha, r, index).Some?
    ensures Intact(b, ToSource(b.sha, r, index).value)
  {
    match r.outcome
    case Failed(reason, status) =>
      SourceFields(index, r, Digest(b.sha, Null).value, Member(K_UNAVAILABLE, Unavailable(reason, status)));
    case Fetched(body) =>
      SourceFields(index, r, Digest(b.sha, body).value, Member(K_BODY, body));
  }

  lemma {:induction false} SourcesBuiltIntact(b: Build, rs: seq<Collected>, n: nat)
    requires n <= |rs| && ToSources(b.sha, rs, n).Some?
    ensures AllIntact(b, ToSources(b.sha, rs, n).value)
  {
    hide Intact, ToSource;
    if n > 0 {
      SourcesBuiltIntact(b, rs, n - 1);
      SourceIntact(b, rs[n - 1], n - 1);
    }
  }

  // What a built source is read as

  /** The part of a response the claims can depend on: neither times nor reasons of failure. */
  function BuiltSource(env: Env, r: Collected, index: nat): Source {
    Source(
      Unsigned(Scaled(index, 0)), EndpointOf(GET + r.path), r.outcome.Fetched? && !Nullish(r.outcome.body),
      ReadBody(env, if r.outcome.Fetched? then r.outcome.body else Undefined, r.params))
  }

  function BuiltSources(env: Env, rs: seq<Collected>): (r: seq<Source>)
    ensures |r| == |rs| && forall i :: 0 <= i < |r| ==> r[i] == BuiltSource(env, rs[i], i)
  {
    seq(|rs|, i requires 0 <= i < |rs| => BuiltSource(env, rs[i], i))
  }

  lemma {:induction false} BuiltSourceReads(env: Env, sha: Bytes -> Text, r: Collected, index: nat)
    requires ToSource(sha, r, index).Some?
    ensures ReadSource(env, ToSource(sha, r, index).value) == BuiltSource(env, r, index)
  {
    hide Field, ReadBody, SourceValue, Scaled, EndpointOf, Digest;
    match r.outcome
    case Failed(reason, status) =>
      SourceFields(index, r, Digest(sha, Null).value, Member(K_UNAVAILABLE, Unavailable(reason, status)));
    case Fetched(body) =>
      SourceFields(index, r, Digest(sha, body).value, Member(K_BODY, body));
  }

  lemma {:induction false} SourcesLength(sha: Bytes -> Text, rs: seq<Collected>, n: nat)
    requires n <= |rs| && ToSources(sha, rs, n).Some?
    ensures |ToSources(sha, rs, n).value| == n
    ensures forall i :: 0 <= i < n ==> ToSource(sha, rs[i], i) == Some(ToSources(sha, rs, n).value[i])
  {
    hide ToSource;
    if n > 0 {
      SourcesLength(sha, rs, n - 1);
    }
  }

  lemma {:induction false} BuiltSourcesRead(env: Env, sha: Bytes -> Text, rs: seq<Collected>)
    requires ToSources(sha, rs, |rs|).Some?
    ensures ReadSources(env, ToSources(sha, rs, |rs|).value) == BuiltSources(env, rs)
  {
    hide ReadSource, BuiltSource, ToSources, ToSource;
    SourcesLength(sha, rs, |rs|);
    forall i | 0 <= i < |rs|
      ensures ReadSource(env, ToSources(sha, rs, |rs|).value[i]) == BuiltSource(env, rs[i], i)
    {
      BuiltSourceReads(env, sha, rs[i], i);
    }
  }

  /** The claims of a built bundle are derived from the responses. */
  function ClaimsFrom(b: Build, w: Window, rs: seq<Collected>): seq<Value> {
    ClaimValues(b, ClaimsOf(MetricsOf(b.env.before, w, BuiltSources(b.env, rs))))
  }

  lemma {:induction false} BuiltClaims(b: Build, w: Window, h: Header, rs: seq<Collected>)
    requires ToSources(b.sha, rs, |rs|).Some?
    ensures BuildEvidence(b, w, h, rs)
         == Some(BundleValue(b, h, ToSources(b.sha, rs, |rs|).value, ClaimsFrom(b, w, rs)))
  {
    hide BundleValue, ClaimValues, MetricsOf, ClaimsOf;
    BundleFields(b, h, ToSources(b.sha, rs, |rs|).value, []);
    BuiltSourcesRead(b.env, b.sha, rs);
  }

  /** The sources of a built bundle are numbered apart. */
  lemma {:induction false} BuiltIndicesDistinct(env: Env, rs: seq<Collected>)
    ensures DeriveOrder.DistinctIndices(BuiltSources(env, rs))
  {
    hide BuiltSource, Scaled, ToReal;
    forall i, j | 0 <= i < j < |rs|
      ensures ToReal(BuiltSources(env, rs)[i].index) != ToReal(BuiltSources(env, rs)[j].index)
    {
      IndexValue(env, rs[i], i);
      IndexValue(env, rs[j], j);
    }
  }

  lemma {:induction false} IndexValue(env: Env, r: Collected, i: nat)
    ensures ToReal(BuiltSource(env, r, i).index) == i as real
  {
    hide Scaled, ReadBody, EndpointOf;
    ScaledValue(i, 0);
    WholeUnit(i);
    UnsignedValue(Scaled(i, 0));
    hide ToReal;
  }

  lemma {:induction false} UnsignedValue(x: Number)
    ensures ToReal(Unsigned(x)) == ToReal(x)
  {
  }

  lemma {:induction false} WholeUnit(i: nat)
    ensures i as real / Pow10(0) as real == i as real
  {
  }

  /** The first element of `a`, taken out of both lists. */
  lemma {:induction false} TakeFirst<T>(a: seq<T>, b: seq<T>) returns (i: nat, c: seq<T>)
    requires a != [] && multiset(a) == multiset(b)
    ensures i < |b| && b[i] == a[0] && c == b[..i] + b[i + 1..] && multiset(a[1..]) == multiset(c)
  {
    assert a[0] in multiset(a);
    i :| 0 <= i < |b| && b[i] == a[0];
    c := b[..i] + b[i + 1..];
    assert b == b[..i] + [b[i]] + b[i + 1..];
    assert a == [a[0]] + a[1..];
    assert multiset(a) - multiset{a[0]} == multiset(a[1..]);
    assert multiset(b) - multiset{a[0]} == multiset(c);
  }

  lemma {:induction false} ReadPermuted(env: Env, a: seq<Value>, b: seq<Value>)
    requires multiset(a) == multiset(b)
    ensures multiset(ReadSources(env, a)) == multiset(ReadSources(env, b))
  {
    if a == [] {
      assert |multiset(b)| == |b|;
    } else {
      hide ReadSources;
      var i, c := TakeFirst(a, b);
      ReadPermuted(env, a[1..], c);
      ReadTaken(env, a, b, i, c);
    }
  }

  lemma {:induction false} ReadTaken(env: Env, a: seq<Value>, b: seq<Value>, i: nat, c: seq<Value>)
    requires a != [] && i < |b| && b[i] == a[0] && c == b[..i] + b[i + 1..]
    requires multiset(ReadSources(env, a[1..])) == multiset(ReadSources(env, c))
    ensures multiset(ReadSources(env, a)) == multiset(ReadSources(env, b))
  {
    hide ReadSource;
    var x, y, z := ReadSources(env, a), ReadSources(env, b), ReadSources(env, c);
    assert x[1..] == ReadSources(env, a[1..]);
    assert z == y[..i] + y[i + 1..];
    PutBack(x, y, i, z);
  }

  lemma {:induction false} PutBack<T>(x: seq<T>, y: seq<T>, i: nat, z: seq<T>)
    requires x != [] && i < |y| && y[i] == x[0] && z == y[..i] + y[i + 1..] && multiset(x[1..]) == multiset(z)
    ensures multiset(x) == multiset(y)
  {
    assert x == [x[0]] + x[1..];
    assert y == y[..i] + [y[i]] + y[i + 1..];
  }

  /** A bundle that lists the sources of a built one in another order re-derives to the same claims. */
  lemma {:induction false} BuiltOrderIrrelevant(b: Build, w: Window, h: Header, rs: seq<Collected>, bundle: Value,
      other: Value)
    requires BuildEvidence(b, w, h, rs) == Some(bundle)
    requires multiset(Items(Field(other, K_SOURCES))) == multiset(Items(Field(bundle, K_SOURCES)))
    ensures Recomputed(b, w, other) == Recomputed(b, w, bundle) == Items(Field(bundle, K_CLAIMS))
  {
    var sources := ToSources(b.sha, rs, |rs|).value;
    BuiltClaims(b, w, h, rs);
    BundleFields(b, h, sources, ClaimsFrom(b, w, rs));
    BuiltSourcesRead(b.env, b.sha, rs);
    BuiltIndicesDistinct(b.env, rs);
    ReadPermuted(b.env, sources, Items(Field(other, K_SOURCES)));
    hide BundleValue, MetricsOf, ClaimsOf, ClaimValues, BuiltSources, ReadSources, BuildEvidence;
    DeriveOrder.SourceOrderIrrelevant(b.env.before, w, BuiltSources(b.env, rs),
                                      ReadSources(b.env, Items(Field(other, K_SOURCES))));
  }

  lemma {:induction false} BundleFields(b: Build, h: Header, sources: seq<Value>, claims: seq<Value>)
    ensures var v := BundleValue(b, h, sources, claims);
      && Field(v, K_SCHEMA) == Str(BUNDLE_SCHEMA)
      && Field(v, K_WINDOW) == h.window
      && Field(v, K_SOURCES) == Arr(sources)
      && Field(v, K_CLAIMS) == Arr(claims)
      && Field(v, K_DERIVATION) == Str(b.derivationId)
  {
    var ms := BundleValue(b, h, sources, claims).members;
    BundleKeysDistinct(ms);
    FieldAt(ms, 0);
    FieldAt(ms, 3);
    FieldAt(ms, 4);
    FieldAt(ms, 5);
    FieldAt(ms, 7);
  }

  /** What a built bundle states besides sources and claims. */
  predicate States(v: Value, b: Build, h: Header) {
    && Field(v, Ascii("schema")) == Str(Ascii("zegel.bundle.v1"))
    && Field(v, Ascii("referenceId")) == Str(h.referenceId)
    && Field(v, Ascii("subject")) == h.subject && Field(v, Ascii("window")) == h.window
    && Field(v, Ascii("derivedAt")) == Str(h.derivedAt) && Field(v, Ascii("derivationId")) == Str(b.derivationId)
    && Field(v, Ascii("controlProof")) == h.control
  }

  lemma {:induction false} BundleStates(b: Build, w: Window, h: Header, rs: seq<Collected>)
    requires BuildEvidence(b, w, h, rs).Some?
    ensures States(BuildEvidence(b, w, h, rs).value, b, h)
  {
    hide Recomputed, ToSources, States, BundleValue;
    var sources := ToSources(b.sha, rs, |rs|).value;
    HeaderStated(b, h, sources, Recomputed(b, w, BundleValue(b, h, sources, [])));
  }

  lemma {:induction false} HeaderStated(b: Build, h: Header, sources: seq<Value>, claims: seq<Value>)
    ensures States(BundleValue(b, h, sources, claims), b, h)
  {
    var v := BundleValue(b, h, sources, claims);
    var ms := v.members;
    hide Field;
    BundleKeysDistinct(ms);
    FieldAt(ms, 0);
    FieldAt(ms, 1);
    FieldAt(ms, 2);
    FieldAt(ms, 3);
    FieldAt(ms, 6);
    FieldAt(ms, 7);
    FieldAt(ms, 8);
  }

  lemma {:induction false} BundleKeysDistinct(ms: seq<Member>)
    requires |ms| == 9
    requires ms[0].key == K_SCHEMA && ms[1].key == K_REFERENCE && ms[2].key == K_SUBJECT && ms[3].key == K_WINDOW
    requires ms[4].key == K_SOURCES && ms[5].key == K_CLAIMS && ms[6].key == K_DERIVED_AT
    requires ms[7].key == K_DERIVATION && ms[8].key == K_CONTROL
    ensures DistinctKeys(ms)
  {
    assert |K_SCHEMA| == 6 && |K_REFERENCE| == 11 && |K_SUBJECT| == 7 && |K_WINDOW| == 6 && |K_SOURCES| == 7;
    assert |K_CLAIMS| == 6 && |K_DERIVED_AT| == 9 && |K_DERIVATION| == 12 && |K_CONTROL| == 12;
    assert K_SCHEMA[0] == 115 && K_WINDOW[0] == 119 && K_CLAIMS[0] == 99;
    assert K_SUBJECT[1] != K_SOURCES[1] && K_DERIVATION[0] != K_CONTROL[0];
  }

  lemma {:induction false} SameClaimsReflexive(cs: seq<Value>)
    ensures SameClaims(cs, cs)
  {
    forall id
      ensures SameClaim(cs, cs, id)
    {
    }
  }

  /** The claims of a draft and of the bundle made from it are derived alike. */
  lemma {:induction false} RecomputedFromSources(b: Build, w: Window, v: Value, u: Value)
    requires Field(v, K_SOURCES) == Field(u, K_SOURCES)
    ensures Recomputed(b, w, v) == Recomputed(b, w, u)
  {
  }

  /** Completeness: whatever was collected, the bundle built from it passes the check of the same
      build, states exactly the derivable claims, and repeats no id. */
  lemma {:induction false} BuiltBundlePasses(b: Build, w: Window, h: Header, rs: seq<Collected>)
    requires BuildEvidence(b, w, h, rs).Some?
    ensures var bundle := BuildEvidence(b, w, h, rs).value;
      && VerdictOf(b, w, bundle).Ok()
      && Items(Field(bundle, K_CLAIMS)) == Recomputed(b, w, bundle)
      && DistinctIds(Items(Field(bundle, K_CLAIMS)))
  {
    var sources := ToSources(b.sha, rs, |rs|).value;
    var draft := BundleValue(b, h, sources, []);
    var claims := Recomputed(b, w, draft);
    var bundle := BundleValue(b, h, sources, claims);
    BundleFields(b, h, sources, []);
    BundleFields(b, h, sources, claims);
    RecomputedFromSources(b, w, draft, bundle);
    SourcesBuiltIntact(b, rs, |rs|);
    SameClaimsReflexive(claims);
    PassesExactly(b, w, bundle);
    DerivedDistinct(b, MetricsOf(b.env.before, w, ReadSources(b.env, sources)));
    hide BundleValue, VerdictOf, AllIntact, SameClaims, ToSources, MetricsOf;
  }

  ghost predicate Recordable(r: Collected) {
    r.outcome.Fetched? ==> Encodable(r.outcome.body)
  }

  lemma {:induction false} SourceBuilds(sha: Bytes -> Text, r: Collected, index: nat)
    ensures ToSource(sha, r, index).Some? <==> Recordable(r)
  {
    EncodePrintsNorm(Null);
    if r.outcome.Fetched? {
      EncodePrintsNorm(r.outcome.body);
    }
    hide Encode, Encodable, SourceValue, Unavailable;
  }

  /** A collection only fails to become a bundle over a body that no JSON text could have given. */
  lemma {:induction false} BuildsExactly(b: Build, rs: seq<Collected>, n: nat)
    requires n <= |rs|
    ensures ToSources(b.sha, rs, n).Some? <==> forall i :: 0 <= i < n ==> Recordable(rs[i])
  {
    hide ToSource, Recordable;
    if n > 0 {
      BuildsExactly(b, rs, n - 1);
      SourceBuilds(b.sha, rs[n - 1], n - 1);
    }
  }

  // Built bundles are JSON

  /** What came over the wire, or was written down by the client, is JSON. */
  ghost predicate Recorded(r: Collected) {
    JsonValue(r.params) && (r.outcome.Fetched? ==> JsonValue(r.outcome.body))
  }

  ghost predicate HeaderJson(h: Header) { JsonValue(h.subject) && JsonValue(h.window) && JsonValue(h.control) }

  lemma {:induction false} UnavailableJson(reason: Text, status: Option<Number>)
    ensures JsonValue(Unavailable(reason, status))
  {
    assert K_REASON[0] == 114 && K_STATUS[0] == 115;
  }

  lemma {:induction false} JsonObject(ms: seq<Member>)
    requires DistinctKeys(ms) && forall i :: 0 <= i < |ms| ==> JsonValue(ms[i].value)
    ensures JsonValue(Obj(ms))
  {
  }

  lemma {:induction false} JsonArray(items: seq<Value>)
    requires forall i :: 0 <= i < |items| ==> JsonValue(items[i])
    ensures JsonValue(Arr(items))
  {
  }

  lemma {:induction false} JsonLeaf(v: Value)
    requires v.Str? || v.Num? || v.Bool?
    ensures JsonValue(v)
  {
  }

  lemma {:induction false} SourceValueJson(index: nat, r: Collected, digest: Text, last: Member)
    requires JsonValue(r.params) && JsonValue(last.value) && (last.key == K_BODY || last.key == K_UNAVAILABLE)
    ensures JsonValue(SourceValue(index, r, digest, last))
  {
    hide JsonValue, Scaled, DistinctKeys;
    var ms := SourceValue(index, r, digest, last).members;
    SourceKeysDistinct(ms);
    JsonLeaf(ms[0].value);
    JsonLeaf(ms[1].value);
    JsonLeaf(ms[3].value);
    JsonLeaf(ms[4].value);
    JsonObject(ms);
  }

  lemma {:induction false} SourceJson(sha: Bytes -> Text, r: Collected, index: nat)
    requires Recorded(r) && ToSource(sha, r, index).Some?
    ensures JsonValue(ToSource(sha, r, index).value)
  {
    hide JsonValue, SourceValue, Unavailable, Digest;
    match r.outcome
    case Failed(reason, status) =>
      UnavailableJson(reason, status);
      SourceValueJson(index, r, Digest(sha, Null).value, Member(K_UNAVAILABLE, Unavailable(reason, status)));
    case Fetched(body) =>
      SourceValueJson(index, r, Digest(sha, body).value, Member(K_BODY, body));
  }

  lemma {:induction false} ClaimJson(b: Build, c: Claim)
    ensures JsonValue(ClaimValue(b, c))
  {
    hide JsonValue, Scaled, Slug, OpText, UnitText, ThresholdUnits, Grid, DistinctKeys;
    var ms := ClaimValue(b, c).members;
    StatedKeysDistinct(ms);
    forall i | 0 <= i < |c.sources|
      ensures JsonValue(NumberValues(c.sources)[i])
    {
      JsonLeaf(NumberValues(c.sources)[i]);
    }
    JsonArray(NumberValues(c.sources));
    forall i | 0 <= i < 7
      ensures JsonValue(ms[i].value)
    {
      JsonLeaf(ms[i].value);
    }
    JsonObject(ms);
  }

  lemma {:induction false} BundleValueJson(b: Build, h: Header, sources: seq<Value>, claims: seq<Value>)
    requires HeaderJson(h) && JsonValue(Arr(sources)) && JsonValue(Arr(claims))
    ensures JsonValue(BundleValue(b, h, sources, claims))
  {
    hide JsonValue, DistinctKeys;
    var ms := BundleValue(b, h, sources, claims).members;
    BundleKeysDistinct(ms);
    JsonLeaf(ms[0].value);
    JsonLeaf(ms[1].value);
    JsonLeaf(ms[6].value);
    JsonLeaf(ms[7].value);
    JsonObject(ms);
  }

  lemma {:induction false} SourcesJson(sha: Bytes -> Text, rs: seq<Collected>)
    requires ToSources(sha, rs, |rs|).Some? && forall i :: 0 <= i < |rs| ==> Recorded(rs[i])
    ensures JsonValue(Arr(ToSources(sha, rs, |rs|).value))
  {
    hide JsonValue, ToSource, ToSources, Recorded;
    var sources := ToSources(sha, rs, |rs|).value;
    SourcesLength(sha, rs, |rs|);
    forall i | 0 <= i < |sources|
      ensures JsonValue(sources[i])
    {
      SourceJson(sha, rs[i], i);
    }
    JsonArray(sources);
  }

  lemma {:induction false} ClaimsJson(b: Build, cs: seq<Claim>)
    ensures JsonValue(Arr(ClaimValues(b, cs)))
  {
    hide JsonValue, ClaimValue;
    forall i | 0 <= i < |cs|
      ensures JsonValue(ClaimValues(b, cs)[i])
    {
      ClaimJson(b, cs[i]);
    }
    JsonArray(ClaimValues(b, cs));
  }

  lemma {:induction false} BundleJson(b: Build, w: Window, h: Header, rs: seq<Collected>)
    requires BuildEvidence(b, w, h, rs).Some? && HeaderJson(h) && forall i :: 0 <= i < |rs| ==> Recorded(rs[i])
    ensures JsonValue(BuildEvidence(b, w, h, rs).value)
  {
    BuiltClaims(b, w, h, rs);
    hide BuildEvidence, BundleValue, JsonValue, MetricsOf, ClaimsOf, ClaimValues, Recorded, HeaderJson;
    SourcesJson(b.sha, rs);
    ClaimsJson(b, ClaimsOf(MetricsOf(b.env.before, w, BuiltSources(b.env, rs))));
    BundleValueJson(b, h, ToSources(b.sha, rs, |rs|).value, ClaimsFrom(b, w, rs));
  }

  /** A bundle built from JSON responses can be sealed, and whoever opens it finds that it passes, with
      the claims it states. */
  lemma {:induction false} OpenedBundlePasses(b: Build, lossy: Bytes -> Text, w: Window, h: Header,
      rs: seq<Collected>, input: Envelope.Input)
    requires BuildEvidence(b, w, h, rs) == Some(input.payload) && ReadWindow(b.env, input.payload) == Some(w)
    requires HeaderJson(h) && (forall i :: 0 <= i < |rs| ==> Recorded(rs[i])) && input.referenceId != []
    ensures Envelope.EncodeEnvelope(b.sha, input).Some?
    ensures var unsealed := Envelope.DecodeBytes(b.sha, lossy, Envelope.EncodeEnvelope(b.sha, input).value);
      && unsealed.Ok?
      && Recheck(b, Field(unsealed.envelope, Envelope.K_PAYLOAD))
         == Verdict([], Items(Field(input.payload, K_CLAIMS)))
  {
    BundleJson(b, w, h, rs);
    JsonReadable(input.payload);
    SealingKeepsTheVerdict(b, lossy, input);
    RecheckDated(b, w, input.payload);
    BuiltBundlePasses(b, w, h, rs);
    VerdictShape(b, w, input.payload);
  }

  lemma {:induction false} VerdictShape(b: Build, w: Window, bundle: Value)
    requires VerdictOf(b, w, bundle).Ok()
    ensures VerdictOf(b, w, bundle) == Verdict([], Recomputed(b, w, bundle))
  {
  }
}
