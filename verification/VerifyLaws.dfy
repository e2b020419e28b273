/** What a passing bundle promises, what it does not, and that honest bundles pass. */
module VerifyLaws {
  import opened Utf
  import opened Numbers
  import opened Json
  import opened Canonical
  import opened Access
  import opened Derive
  import opened Metrics
  import opened Claims
  import opened Reading
  import opened Verify
  import Envelope
  import Sorting

  // When no mismatch is found

  lemma {:induction false} FlatEmpty<T>(xs: seq<seq<T>>, n: nat)
    requires n <= |xs|
    ensures Flat(xs, n) == [] <==> forall i :: 0 <= i < n ==> xs[i] == []
  {
    if n > 0 {
      FlatEmpty(xs, n - 1);
    }
  }

  const COMPARED :=
    {Ascii("statement"), Ascii("op"), Ascii("unit"), Ascii("passed"), Ascii("actual"), Ascii("threshold"),
     Ascii("sources")}

  predicate SameField(c: Value, d: Value, k: Text) { FieldText(c, k) == FieldText(d, k) }

  /** The claims agree on statement, operator, unit, outcome, measured value, threshold and sources. */
  predicate Agrees(c: Value, d: Value) {
    && SameField(c, d, K_STATEMENT) && SameField(c, d, K_OP) && SameField(c, d, K_UNIT) && SameField(c, d, K_PASSED)
    && SameField(c, d, K_ACTUAL) && SameField(c, d, K_THRESHOLD) && SameField(c, d, K_SOURCES)
  }

  lemma {:induction false} ComparedAt(k: Text)
    ensures k in COMPARED <==> exists i :: 0 <= i < 7 && FieldAtIndex(i) == k
  {
    assert FieldAtIndex(0) == K_STATEMENT && FieldAtIndex(1) == K_OP && FieldAtIndex(2) == K_UNIT;
    assert FieldAtIndex(3) == K_PASSED && FieldAtIndex(4) == K_ACTUAL && FieldAtIndex(5) == K_THRESHOLD;
    assert FieldAtIndex(6) == K_SOURCES;
  }

  lemma {:induction false} FieldFaultAt(c: Value, d: Value, id: Value, xs: seq<seq<Mismatch>>, i: nat)
    requires i < 7 && xs == FieldFaults(c, d, id)
    ensures xs[i] == [] <==> SameText(c, d, i)
  {
  }

  lemma {:induction false} FieldsByName(c: Value, d: Value)
    ensures Agrees(c, d) <==> forall i :: 0 <= i < 7 ==> SameText(c, d, i)
  {
    hide FieldText;
    assert SameText(c, d, 0) <==> SameField(c, d, K_STATEMENT);
    assert SameText(c, d, 1) <==> SameField(c, d, K_OP);
    assert SameText(c, d, 2) <==> SameField(c, d, K_UNIT);
    assert SameText(c, d, 3) <==> SameField(c, d, K_PASSED);
    assert SameText(c, d, 4) <==> SameField(c, d, K_ACTUAL);
    assert SameText(c, d, 5) <==> SameField(c, d, K_THRESHOLD);
    assert SameText(c, d, 6) <==> SameField(c, d, K_SOURCES);
    hide SameText, SameField;
    if Agrees(c, d) {
      forall i | 0 <= i < 7
        ensures SameText(c, d, i)
      {
        assert i == 0 || i == 1 || i == 2 || i == 3 || i == 4 || i == 5 || i == 6;
      }
    }
  }

  lemma {:induction false} AllEmptyAgrees(c: Value, d: Value, xs: seq<seq<Mismatch>>)
    requires |xs| == 7 && forall i :: 0 <= i < 7 ==> (xs[i] == [] <==> SameText(c, d, i))
    ensures (forall i :: 0 <= i < 7 ==> xs[i] == []) <==> Agrees(c, d)
  {
    FieldsByName(c, d);
    hide Agrees, SameText;
  }

  lemma {:induction false} FieldsAgree(c: Value, d: Value, id: Value)
    ensures DifferingFields(c, d, id) == [] <==> Agrees(c, d)
  {
    var xs := FieldFaults(c, d, id);
    FlatEmpty(xs, |xs|);
    forall i | 0 <= i < 7
      ensures xs[i] == [] <==> SameText(c, d, i)
    {
      FieldFaultAt(c, d, id, xs, i);
    }
    AllEmptyAgrees(c, d, xs);
  }

  /** An entry without a body, or with the body its digest describes. */
  ghost predicate Intact(b: Build, s: Value) {
    Field(s, K_BODY) == Undefined
    || (Field(s, K_UNAVAILABLE) == Undefined && Digest(b.sha, Field(s, K_BODY)) == Some(TextOf(Field(s, K_DIGEST))))
  }

  ghost predicate AllIntact(b: Build, ss: seq<Value>) {
    forall i :: 0 <= i < |ss| ==> Intact(b, ss[i])
  }

  lemma {:induction false} FaultlessIntact(b: Build, s: Value)
    ensures SourceFault(b, s) == [] <==> Intact(b, s)
  {
  }

  lemma {:induction false} SourcesIntact(b: Build, ss: seq<Value>)
    ensures Flat(SourceFaults(b, ss), |ss|) == [] <==> AllIntact(b, ss)
  {
    hide SourceFault, Intact;
    var xs := SourceFaults(b, ss);
    FlatEmpty(xs, |xs|);
    forall i | 0 <= i < |ss|
      ensures xs[i] == [] <==> Intact(b, ss[i])
    {
      FaultlessIntact(b, ss[i]);
    }
  }

  /** The two maps have the same keys, and under each key the same seven fields. */
  ghost predicate SameClaim(cs: seq<Value>, ds: seq<Value>, id: Value) {
    match (Stated(cs, id), Stated(ds, id))
    case (Some(c), Some(d)) => Agrees(c, d)
    case (None, None) => true
    case _ => false
  }

  ghost predicate SameClaims(cs: seq<Value>, ds: seq<Value>) {
    forall id :: SameClaim(cs, ds, id)
  }

  lemma {:induction false} NoneAbsent(cs: seq<Value>, ids: seq<Value>)
    ensures Flat(AbsentFaults(cs, ids), |ids|) == [] <==> forall i :: 0 <= i < |ids| ==> Stated(cs, ids[i]).Some?
  {
    hide Stated, IdOf;
    var xs := AbsentFaults(cs, ids);
    FlatEmpty(xs, |xs|);
    forall i | 0 <= i < |ids|
      ensures xs[i] == [] <==> Stated(cs, ids[i]).Some?
    {
    }
  }

  lemma {:induction false} NoneExtra(ds: seq<Value>, ids: seq<Value>)
    ensures Flat(ExtraFaults(ds, ids), |ids|) == [] <==> forall i :: 0 <= i < |ids| ==> Stated(ds, ids[i]).Some?
  {
    hide Stated, IdOf;
    var xs := ExtraFaults(ds, ids);
    FlatEmpty(xs, |xs|);
    forall i | 0 <= i < |ids|
      ensures xs[i] == [] <==> Stated(ds, ids[i]).Some?
    {
    }
  }

  ghost predicate Compatible(cs: seq<Value>, ds: seq<Value>, id: Value) {
    Stated(cs, id).Some? && Stated(ds, id).Some? ==> Agrees(Stated(cs, id).value, Stated(ds, id).value)
  }

  lemma {:induction false} NoneDiffers(cs: seq<Value>, ds: seq<Value>, ids: seq<Value>)
    ensures Flat(ClaimFaults(cs, ds, ids), |ids|) == [] <==> forall i :: 0 <= i < |ids| ==> Compatible(cs, ds, ids[i])
  {
    hide Agrees, DifferingFields, Stated;
    var xs := ClaimFaults(cs, ds, ids);
    FlatEmpty(xs, |xs|);
    forall i | 0 <= i < |ids|
      ensures xs[i] == [] <==> Compatible(cs, ds, ids[i])
    {
      if Stated(cs, ids[i]).Some? && Stated(ds, ids[i]).Some? {
        FieldsAgree(Stated(cs, ids[i]).value, Stated(ds, ids[i]).value, ids[i]);
      }
    }
  }

  ghost predicate Lists(ids: seq<Value>, cs: seq<Value>) {
    forall id :: id in ids <==> Stated(cs, id).Some?
  }

  /** What the three loops look for, over any listing of the two maps' keys. */
  ghost predicate NothingFound(cs: seq<Value>, ds: seq<Value>, stated: seq<Value>, derived: seq<Value>) {
    && (forall i :: 0 <= i < |derived| ==> Stated(cs, derived[i]).Some?)
    && (forall i :: 0 <= i < |stated| ==> Stated(ds, stated[i]).Some?)
    && (forall i :: 0 <= i < |derived| ==> Compatible(cs, ds, derived[i]))
  }

  lemma {:induction false} FoundSame(cs: seq<Value>, ds: seq<Value>, stated: seq<Value>, derived: seq<Value>, id: Value)
    requires Lists(stated, cs) && Lists(derived, ds) && NothingFound(cs, ds, stated, derived)
    ensures SameClaim(cs, ds, id)
  {
    if Stated(cs, id).Some? {
      assert id in stated;
    }
    if Stated(ds, id).Some? {
      assert id in derived;
      assert Compatible(cs, ds, id);
    }
  }

  lemma {:induction false} SameNothingFound(cs: seq<Value>, ds: seq<Value>, stated: seq<Value>, derived: seq<Value>)
    requires Lists(stated, cs) && Lists(derived, ds) && SameClaims(cs, ds)
    ensures NothingFound(cs, ds, stated, derived)
  {
    forall i | 0 <= i < |derived|
      ensures Stated(cs, derived[i]).Some? && Compatible(cs, ds, derived[i])
    {
      assert derived[i] in derived && SameClaim(cs, ds, derived[i]);
    }
    forall i | 0 <= i < |stated|
      ensures Stated(ds, stated[i]).Some?
    {
      assert stated[i] in stated && SameClaim(cs, ds, stated[i]);
    }
  }

  lemma {:induction false} StatedIds(cs: seq<Value>, ids: seq<Value>)
    requires ids == IdsOf(cs, |cs|)
    ensures Lists(ids, cs)
  {
    hide IdOf;
  }

  lemma {:induction false} ThreeEmpty<T>(a: seq<T>, b: seq<T>, c: seq<T>)
    ensures a + (b + c) == [] <==> a == [] && b == [] && c == []
  {
    assert |a + (b + c)| == |a| + |b| + |c|;
  }

  lemma {:induction false} NothingDiffers(cs: seq<Value>, ds: seq<Value>)
    ensures Differences(cs, ds) == [] <==> NothingFound(cs, ds, IdsOf(cs, |cs|), IdsOf(ds, |ds|))
  {
    hide Stated, IdOf, Compatible, IdsOf, Flat;
    var derived, stated := IdsOf(ds, |ds|), IdsOf(cs, |cs|);
    NoneAbsent(cs, derived);
    NoneExtra(ds, stated);
    NoneDiffers(cs, ds, derived);
    ThreeEmpty(Flat(AbsentFaults(cs, derived), |derived|), Flat(ExtraFaults(ds, stated), |stated|),
               Flat(ClaimFaults(cs, ds, derived), |derived|));
  }

  lemma {:induction false} NoDifferences(cs: seq<Value>, ds: seq<Value>)
    ensures Differences(cs, ds) == [] <==> SameClaims(cs, ds)
  {
    hide Agrees, Stated, IdOf, SameClaim, Differences, NothingFound, Lists;
    var derived, stated := IdsOf(ds, |ds|), IdsOf(cs, |cs|);
    StatedIds(cs, stated);
    StatedIds(ds, derived);
    NothingDiffers(cs, ds);
    if SameClaims(cs, ds) {
      SameNothingFound(cs, ds, stated, derived);
    }
    if NothingFound(cs, ds, stated, derived) {
      forall id
        ensures SameClaim(cs, ds, id)
      {
        FoundSame(cs, ds, stated, derived, id);
      }
    }
  }

  /** A bundle passes exactly when its schema and rule digest are this build's, every source is
      intact, and the claims stated and the claims derived fill the same map. */
  lemma {:induction false} PassesExactly(b: Build, w: Window, bundle: Value)
    ensures VerdictOf(b, w, bundle).Ok() <==>
      && Field(bundle, K_SCHEMA) == Str(BUNDLE_SCHEMA)
      && TextOf(Field(bundle, K_DERIVATION)) == b.derivationId
      && AllIntact(b, Items(Field(bundle, K_SOURCES)))
      && SameClaims(Items(Field(bundle, K_CLAIMS)), Recomputed(b, w, bundle))
  {
    hide Field, Recomputed, Differences;
    SourcesIntact(b, Items(Field(bundle, K_SOURCES)));
    NoDifferences(Items(Field(bundle, K_CLAIMS)), Recomputed(b, w, bundle));
  }

  // Claims as what they state

  /** A claim as the comparison sees it: its id and the text of each compared field. */
  datatype Shown = Shown(
    id: Value, statement: Option<Text>, op: Option<Text>, unit: Option<Text>, passed: Option<Text>,
    actual: Option<Text>, threshold: Option<Text>, sources: Option<Text>)

  function Show(c: Value): Shown {
    Shown(IdOf(c), FieldText(c, K_STATEMENT), FieldText(c, K_OP), FieldText(c, K_UNIT), FieldText(c, K_PASSED),
          FieldText(c, K_ACTUAL), FieldText(c, K_THRESHOLD), FieldText(c, K_SOURCES))
  }

  function ShowAll(cs: seq<Value>): (r: seq<Shown>)
    ensures |r| == |cs| && forall i :: 0 <= i < |r| ==> r[i] == Show(cs[i])
  {
    seq(|cs|, i requires 0 <= i < |cs| => Show(cs[i]))
  }

  lemma {:induction false} ShowAgrees(c: Value, d: Value)
    ensures Show(c) == Show(d) <==> IdOf(c) == IdOf(d) && Agrees(c, d)
  {
    hide IdOf, FieldText;
  }

  ghost predicate DistinctIds(cs: seq<Value>) {
    forall i, j :: 0 <= i < j < |cs| ==> IdOf(cs[i]) != IdOf(cs[j])
  }

  lemma {:induction false} StatedForIn(cs: seq<Value>, n: nat, id: Value)
    requires n <= |cs|
    ensures StatedFor(cs, n, id).Some? <==> exists i :: 0 <= i < n && IdOf(cs[i]) == id
    ensures StatedFor(cs, n, id).Some? ==> exists i :: 0 <= i < n && cs[i] == StatedFor(cs, n, id).value
  {
    hide IdOf;
    if n > 0 {
      StatedForIn(cs, n - 1, id);
    }
  }

  lemma {:induction false} StatedForOnly(cs: seq<Value>, n: nat, i: nat)
    requires i < n <= |cs| && DistinctIds(cs)
    ensures StatedFor(cs, n, IdOf(cs[i])) == Some(cs[i])
  {
    hide IdOf;
    if i < n - 1 {
      StatedForOnly(cs, n - 1, i);
    }
  }

  lemma {:induction false} ShownOnce(cs: seq<Value>)
    requires DistinctIds(cs)
    ensures forall x :: multiset(ShowAll(cs))[x] <= 1
  {
    var s := ShowAll(cs);
    forall i, j | 0 <= i < j < |s|
      ensures s[i] != s[j]
    {
      assert s[i].id == IdOf(cs[i]) && s[j].id == IdOf(cs[j]);
    }
    Sorting.CountedOnce(s);
  }

  lemma {:induction false} SameShown(cs: seq<Value>, ds: seq<Value>, x: Shown)
    requires DistinctIds(cs) && DistinctIds(ds) && SameClaims(cs, ds) && x in ShowAll(cs)
    ensures x in ShowAll(ds)
  {
    var i :| 0 <= i < |cs| && Show(cs[i]) == x;
    StatedForOnly(cs, |cs|, i);
    var id := IdOf(cs[i]);
    assert SameClaim(cs, ds, id);
    StatedForIn(ds, |ds|, id);
    var j :| 0 <= j < |ds| && ds[j] == Stated(ds, id).value;
    ShowAgrees(cs[i], ds[j]);
    assert ShowAll(ds)[j] == x;
  }

  lemma {:induction false} SameClaimsFlip(cs: seq<Value>, ds: seq<Value>)
    requires SameClaims(cs, ds)
    ensures SameClaims(ds, cs)
  {
    forall id
      ensures SameClaim(ds, cs, id)
    {
      assert SameClaim(cs, ds, id);
      if Stated(cs, id).Some? {
        AgreesFlip(Stated(cs, id).value, Stated(ds, id).value);
      }
    }
  }

  lemma {:induction false} AgreesFlip(c: Value, d: Value)
    requires Agrees(c, d)
    ensures Agrees(d, c)
  {
    hide FieldText;
  }

  /** Two claim lists without repeated ids fill the same map exactly when they show the same
      claims, up to order. */
  lemma {:induction false} SameUpToOrder(cs: seq<Value>, ds: seq<Value>)
    requires DistinctIds(cs) && DistinctIds(ds) && SameClaims(cs, ds)
    ensures multiset(ShowAll(cs)) == multiset(ShowAll(ds))
  {
    ShownOnce(cs);
    ShownOnce(ds);
    SameClaimsFlip(cs, ds);
    forall x
      ensures multiset(ShowAll(cs))[x] == multiset(ShowAll(ds))[x]
    {
      if x in ShowAll(cs) {
        SameShown(cs, ds, x);
      }
      if x in ShowAll(ds) {
        SameShown(ds, cs, x);
      }
    }
  }

  lemma {:induction false} ShownDistinct(cs: seq<Value>, ds: seq<Value>)
    requires DistinctIds(ds) && multiset(ShowAll(cs)) == multiset(ShowAll(ds))
    ensures DistinctIds(cs)
  {
    hide Show, IdOf;
    var s, t := ShowAll(cs), ShowAll(ds);
    ShownOnce(ds);
    Sorting.SameElements(s, t);
    forall i, j | 0 <= i < j < |cs|
      ensures IdOf(cs[i]) != IdOf(cs[j])
    {
      assert s[i] in t && s[j] in t;
      var k :| 0 <= k < |t| && t[k] == s[i];
      var l :| 0 <= l < |t| && t[l] == s[j];
      if s[i] == s[j] {
        Sorting.CountedTwice(s, i, j);
      } else {
        ShownId(ds[k], cs[i]);
        ShownId(ds[l], cs[j]);
        assert k < l || l < k;
      }
    }
  }

  lemma {:induction false} ShownId(c: Value, d: Value)
    requires Show(c) == Show(d)
    ensures IdOf(c) == IdOf(d)
  {
    assert Show(c).id == Show(d).id;
  }

  lemma {:induction false} IdOfClaim(b: Build, c: Claim)
    ensures IdOf(ClaimValue(b, c)) == Str(Slug(c.id))
  {
    assert Lookup(ClaimValue(b, c).members, K_ID) == Some(Str(Slug(c.id)));
  }

  lemma {:induction false} DerivedDistinct(b: Build, m: Measured)
    ensures DistinctIds(ClaimValues(b, ClaimsOf(m)))
  {
    var cs := ClaimsOf(m);
    var ds := ClaimValues(b, cs);
    DerivedInOrder(m);
    forall i, j | 0 <= i < j < |ds|
      ensures IdOf(ds[i]) != IdOf(ds[j])
    {
      IdOfClaim(b, cs[i]);
      IdOfClaim(b, cs[j]);
      if Slug(cs[i].id) == Slug(cs[j].id) {
        SlugInjective(cs[i].id, cs[j].id);
      }
    }
  }

  /** Soundness, with its exact condition: a passing bundle states the derivable claims and no
      others, in some order and with the same seven fields, exactly when it repeats no claim id. */
  lemma {:induction false} PassingStatesTheDerivable(b: Build, w: Window, bundle: Value)
    requires VerdictOf(b, w, bundle).Ok()
    ensures DistinctIds(Items(Field(bundle, K_CLAIMS))) <==>
            multiset(ShowAll(Items(Field(bundle, K_CLAIMS)))) == multiset(ShowAll(Recomputed(b, w, bundle)))
  {
    PassesExactly(b, w, bundle);
    var cs, ds := Items(Field(bundle, K_CLAIMS)), Recomputed(b, w, bundle);
    DerivedDistinct(b, MetricsOf(b.env.before, w, ReadSources(b.env, Items(Field(bundle, K_SOURCES)))));
    if DistinctIds(cs) {
      SameUpToOrder(cs, ds);
    } else if multiset(ShowAll(cs)) == multiset(ShowAll(ds)) {
      ShownDistinct(cs, ds);
    }
  }

  // A repeated id hides a claim

  lemma {:induction false} StatedBehind(x: Value, cs: seq<Value>, n: nat, id: Value)
    requires n <= |cs|
    ensures StatedFor([x] + cs, n + 1, id)
         == if StatedFor(cs, n, id).Some? then StatedFor(cs, n, id) else if IdOf(x) == id then Some(x) else None
  {
    hide IdOf;
    if n > 0 {
      StatedBehind(x, cs, n - 1, id);
      assert ([x] + cs)[n] == cs[n - 1];
    }
  }

  lemma {:induction false} SameClaimsBehind(x: Value, cs: seq<Value>, ds: seq<Value>)
    requires SameClaims(cs, ds)
    ensures SameClaims([x] + cs, ds) <==> Stated(ds, IdOf(x)).Some?
  {
    hide IdOf, Agrees;
    forall id
      ensures Stated([x] + cs, id)
           == if Stated(cs, id).Some? then Stated(cs, id) else if IdOf(x) == id then Some(x) else None
    {
      StatedBehind(x, cs, |cs|, id);
    }
    assert SameClaim(cs, ds, IdOf(x));
    if Stated(ds, IdOf(x)).Some? {
      forall id
        ensures SameClaim([x] + cs, ds, id)
      {
        assert SameClaim(cs, ds, id);
      }
    } else {
      assert !SameClaim([x] + cs, ds, IdOf(x));
    }
  }

  /** `other` is `bundle` with the claim `x` stated in front of the others. */
  ghost predicate StatedInFront(bundle: Value, other: Value, x: Value) {
    && Field(other, K_SCHEMA) == Field(bundle, K_SCHEMA) && Field(other, K_DERIVATION) == Field(bundle, K_DERIVATION)
    && Field(other, K_SOURCES) == Field(bundle, K_SOURCES)
    && Items(Field(other, K_CLAIMS)) == [x] + Items(Field(bundle, K_CLAIMS))
  }

  /** Why the ids must be distinct: whatever a claim says, stating it in front of a passing bundle's
      claims goes unnoticed exactly when its id is one of theirs. */
  lemma {:induction false} HiddenClaimPasses(b: Build, w: Window, bundle: Value, other: Value, x: Value)
    requires VerdictOf(b, w, bundle).Ok() && StatedInFront(bundle, other, x)
    ensures VerdictOf(b, w, other).Ok() <==> Stated(Items(Field(bundle, K_CLAIMS)), IdOf(x)).Some?
  {
    PassesExactly(b, w, bundle);
    PassesExactly(b, w, other);
    SameClaimsBehind(x, Items(Field(bundle, K_CLAIMS)), Recomputed(b, w, bundle));
    assert SameClaim(Items(Field(bundle, K_CLAIMS)), Recomputed(b, w, bundle), IdOf(x));
    assert Recomputed(b, w, other) == Recomputed(b, w, bundle);
    hide Field, VerdictOf, Recomputed, IdOf, Stated, SameClaims, SameClaim, AllIntact;
  }

  // What a derived claim states

  lemma {:induction false} StatedKeysDistinct(ms: seq<Member>)
    requires |ms| == 8
    requires ms[0].key == K_ID && ms[1].key == K_STATEMENT && ms[2].key == K_OP && ms[3].key == K_THRESHOLD
    requires ms[4].key == K_UNIT && ms[5].key == K_PASSED && ms[6].key == K_ACTUAL && ms[7].key == K_SOURCES
    ensures DistinctKeys(ms)
  {
    assert |K_ID| == 2 && |K_STATEMENT| == 9 && |K_OP| == 2 && |K_THRESHOLD| == 9 && |K_UNIT| == 4 && |K_PASSED| == 6;
    assert |K_ACTUAL| == 6 && |K_SOURCES| == 7 && K_ID[0] == 105 && K_OP[0] == 111;
    assert K_STATEMENT[0] == 115 && K_THRESHOLD[0] == 116 && K_PASSED[0] == 112 && K_ACTUAL[0] == 97;
  }

  lemma {:induction false} StatedFields(b: Build, c: Claim)
    ensures var v := ClaimValue(b, c);
      && Field(v, K_OP) == Str(OpText(OpOf(c.id))) && Field(v, K_PASSED) == Bool(c.passed)
      && Field(v, K_THRESHOLD) == Num(Scaled(ThresholdUnits(c.id), Grid(c.id)))
      && Field(v, K_ACTUAL) == Num(Scaled(c.actual, Grid(c.id)))
  {
    hide Scaled, Field, Slug, OpText, UnitText, Grid, ThresholdUnits;
    var ms := ClaimValue(b, c).members;
    StatedKeysDistinct(ms);
    FieldAt(ms, 2);
    FieldAt(ms, 3);
    FieldAt(ms, 5);
    FieldAt(ms, 6);
  }

  /** At least, or at most. */
  lemma {:induction false} OpSpelled(id: ClaimId)
    ensures OpText(OpOf(id)) == Ascii("gte") <==> OpOf(id) == Gte
    ensures OpText(OpOf(id)) == Ascii("lte") <==> OpOf(id) == Lte
  {
    assert Ascii("gte")[0] == 103 && Ascii("lte")[0] == 108;
  }

  /** The claim passed exactly when the value it states is on the side of the threshold it states that its
      operator names. */
  predicate JudgesItself(v: Value) {
    var x, bar := Field(v, Ascii("actual")), Field(v, Ascii("threshold"));
    && x.Num? && bar.Num?
    && (Field(v, Ascii("op")) == Str(Ascii("gte")) ==> Field(v, Ascii("passed")) == Bool(ToReal(x.x) >= ToReal(bar.x)))
    && (Field(v, Ascii("op")) == Str(Ascii("lte")) ==> Field(v, Ascii("passed")) == Bool(ToReal(x.x) <= ToReal(bar.x)))
    && Field(v, Ascii("op")) in {Str(Ascii("gte")), Str(Ascii("lte"))}
  }

  /** A derived claim can be judged from what it states: its threshold and measured value stand for
      exactly the reals it was judged by, and it says it passed exactly when they compare as its operator
      says. */
  lemma {:induction false} StatedClaimJudged(b: Build, m: Measured, i: nat)
    requires i < |ClaimsOf(m)|
    ensures var c, v := ClaimsOf(m)[i], ClaimValue(b, ClaimsOf(m)[i]);
      && Field(v, K_THRESHOLD).Num? && Field(v, K_ACTUAL).Num?
      && Bar(ToReal(Field(v, K_THRESHOLD).x)) == ThresholdOf(c.id)
      && ToReal(Field(v, K_ACTUAL).x) == Unround(c.actual, Grid(c.id))
    ensures JudgesItself(ClaimValue(b, ClaimsOf(m)[i]))
  {
    hide Scaled, ToReal, ClaimsOf, ClaimValue, Listed, InOrder, Ids, ActualOf, Field, OpText, Grid;
    var c := ClaimsOf(m)[i];
    DerivedInOrder(m);
    ListedMakes(m, 10, i);
    StatedFields(b, c);
    ScaledValue(ThresholdUnits(c.id), Grid(c.id));
    ScaledValue(c.actual, Grid(c.id));
    ThresholdOnGrid(c.id);
    OpSpelled(c.id);
  }

  // What is reported

  lemma {:induction false} FlatMember<T>(xs: seq<seq<T>>, n: nat, x: T)
    requires n <= |xs|
    ensures x in Flat(xs, n) <==> exists i :: 0 <= i < n && x in xs[i]
  {
    if n > 0 {
      FlatMember(xs, n - 1, x);
    }
  }

  /** When a mismatch is to be reported, the claims derived being `ds`. */
  ghost predicate Due(b: Build, bundle: Value, ds: seq<Value>, m: Mismatch) {
    var cs, sources := Items(Field(bundle, Ascii("claims"))), Items(Field(bundle, Ascii("sources")));
    match m
    case SchemaMismatch => Field(bundle, Ascii("schema")) != Str(Ascii("zegel.bundle.v1"))
    case DerivationMismatch => false
    case BodyThoughUnavailable(index) => exists s :: s in sources && Stowed(s, index)
    case DigestMismatch(index) => exists s :: s in sources && Altered(b, s, index)
    case Absent(id) => Stated(ds, id).Some? && Stated(cs, id).None?
    case NotDerivable(id) => Stated(cs, id).Some? && Stated(ds, id).None?
    case FieldDiffers(id, k) =>
      && Stated(cs, id).Some? && Stated(ds, id).Some?
      && k in COMPARED && !SameField(Stated(cs, id).value, Stated(ds, id).value, k)
  }

  /** A source that is marked unavailable and carries a body. */
  ghost predicate Stowed(s: Value, index: Value) {
    && Norm(Field(s, Ascii("index"))) == index
    && Field(s, Ascii("unavailable")) != Undefined && Field(s, Ascii("body")) != Undefined
  }

  /** A source with a body that is not what its digest says. */
  ghost predicate Altered(b: Build, s: Value, index: Value) {
    && Norm(Field(s, Ascii("index"))) == index
    && Field(s, Ascii("unavailable")) == Undefined && Field(s, Ascii("body")) != Undefined
    && Digest(b.sha, Field(s, Ascii("body"))) != Some(TextOf(Field(s, Ascii("digest"))))
  }

  lemma {:induction false} SourceReports(b: Build, ss: seq<Value>, m: Mismatch)
    ensures m in Flat(SourceFaults(b, ss), |ss|) <==>
      || (m.BodyThoughUnavailable? && exists s :: s in ss && Stowed(s, m.index))
      || (m.DigestMismatch? && exists s :: s in ss && Altered(b, s, m.index))
  {
    var xs := SourceFaults(b, ss);
    FlatMember(xs, |xs|, m);
    hide Field, Digest, Norm, SourceFaults, SourceFault, Stowed, Altered;
    forall i | 0 <= i < |ss|
      ensures m in xs[i] <==>
        (m.BodyThoughUnavailable? && Stowed(ss[i], m.index)) || (m.DigestMismatch? && Altered(b, ss[i], m.index))
    {
      SourceReport(b, ss[i], m);
    }
  }

  lemma {:induction false} SourceReport(b: Build, s: Value, m: Mismatch)
    ensures m in SourceFault(b, s) <==>
      (m.BodyThoughUnavailable? && Stowed(s, m.index)) || (m.DigestMismatch? && Altered(b, s, m.index))
  {
    hide Field, Digest, Norm;
  }

  lemma {:induction false} IdsHold(cs: seq<Value>, id: Value)
    ensures id in IdsOf(cs, |cs|) <==> Stated(cs, id).Some?
  {
    hide IdOf;
  }

  lemma {:induction false} AbsentReports(cs: seq<Value>, ds: seq<Value>, m: Mismatch)
    ensures var ids := IdsOf(ds, |ds|);
      m in Flat(AbsentFaults(cs, ids), |ids|) <==> m.Absent? && Stated(ds, m.id).Some? && Stated(cs, m.id).None?
  {
    var ids := IdsOf(ds, |ds|);
    FlatMember(AbsentFaults(cs, ids), |ids|, m);
    if m.Absent? {
      IdsHold(ds, m.id);
    }
    hide IdsOf, Stated, IdOf;
  }

  lemma {:induction false} ExtraReports(cs: seq<Value>, ds: seq<Value>, m: Mismatch)
    ensures var ids := IdsOf(cs, |cs|);
      m in Flat(ExtraFaults(ds, ids), |ids|) <==> m.NotDerivable? && Stated(cs, m.id).Some? && Stated(ds, m.id).None?
  {
    var ids := IdsOf(cs, |cs|);
    FlatMember(ExtraFaults(ds, ids), |ids|, m);
    if m.NotDerivable? {
      IdsHold(cs, m.id);
    }
    hide IdsOf, Stated, IdOf;
  }

  lemma {:induction false} FieldReport(c: Value, d: Value, id: Value, i: nat, m: Mismatch)
    requires i < 7
    ensures m in FieldFaults(c, d, id)[i] <==>
      m.FieldDiffers? && m.id == id && m.field == FieldAtIndex(i) && !SameField(c, d, FieldAtIndex(i))
  {
    hide FieldText, FieldAtIndex;
  }

  lemma {:induction false} FieldReports(c: Value, d: Value, id: Value, m: Mismatch)
    ensures m in DifferingFields(c, d, id) <==>
      m.FieldDiffers? && m.id == id && m.field in COMPARED && !SameField(c, d, m.field)
  {
    hide FieldAtIndex, COMPARED, SameField, SameText, Flat;
    var xs := FieldFaults(c, d, id);
    FlatMember(xs, |xs|, m);
    if m.FieldDiffers? {
      ComparedAt(m.field);
    }
    forall i | 0 <= i < 7
      ensures m in xs[i] <==>
        m.FieldDiffers? && m.id == id && m.field == FieldAtIndex(i) && !SameField(c, d, FieldAtIndex(i))
    {
      FieldReport(c, d, id, i, m);
    }
  }

  lemma {:induction false} DifferReports(cs: seq<Value>, ds: seq<Value>, m: Mismatch)
    ensures var ids := IdsOf(ds, |ds|);
      m in Flat(ClaimFaults(cs, ds, ids), |ids|) <==>
        && m.FieldDiffers? && Stated(cs, m.id).Some? && Stated(ds, m.id).Some?
        && m.field in COMPARED && !SameField(Stated(cs, m.id).value, Stated(ds, m.id).value, m.field)
  {
    var ids := IdsOf(ds, |ds|);
    FlatMember(ClaimFaults(cs, ds, ids), |ids|, m);
    if m.FieldDiffers? {
      IdsHold(ds, m.id);
    }
    hide IdsOf, Stated, IdOf, DifferingFields, SameField;
    forall i | 0 <= i < |ids|
      ensures m in ClaimFault(cs, ds, ids[i]) <==>
        && m.FieldDiffers? && m.id == ids[i] && Stated(cs, m.id).Some? && Stated(ds, m.id).Some?
        && m.field in COMPARED && !SameField(Stated(cs, m.id).value, Stated(ds, m.id).value, m.field)
    {
      if Stated(cs, ids[i]).Some? && Stated(ds, ids[i]).Some? {
        FieldReports(Stated(cs, ids[i]).value, Stated(ds, ids[i]).value, ids[i], m);
      }
    }
  }

  /** Everything the check finds and nothing else: for a bundle with this build's rule digest a mismatch
      is reported exactly when it is due. */
  lemma {:induction false} ReportsExactly(b: Build, bundle: Value, ds: seq<Value>, m: Mismatch)
    requires TextOf(Field(bundle, K_DERIVATION)) == b.derivationId
    ensures m in VerdictWith(b, bundle, ds).mismatches <==> Due(b, bundle, ds, m)
  {
    hide Field, Flat, IdsOf, Stated, SameField, COMPARED, Stowed, Altered, SourceFaults, AbsentFaults, ExtraFaults,
      ClaimFaults, Differences;
    var cs, ss := Items(Field(bundle, K_CLAIMS)), Items(Field(bundle, K_SOURCES));
    assert BUNDLE_SCHEMA == Ascii("zegel.bundle.v1");
    SourceReports(b, ss, m);
    ClaimReports(cs, ds, m);
  }

  lemma {:induction false} ClaimReports(cs: seq<Value>, ds: seq<Value>, m: Mismatch)
    ensures m in Differences(cs, ds) <==>
      || (m.Absent? && Stated(ds, m.id).Some? && Stated(cs, m.id).None?)
      || (m.NotDerivable? && Stated(cs, m.id).Some? && Stated(ds, m.id).None?)
      || (m.FieldDiffers? && Stated(cs, m.id).Some? && Stated(ds, m.id).Some?
        && m.field in COMPARED && !SameField(Stated(cs, m.id).value, Stated(ds, m.id).value, m.field))
  {
    AbsentReports(cs, ds, m);
    ExtraReports(cs, ds, m);
    DifferReports(cs, ds, m);
    hide Flat, IdsOf, Stated, SameField, COMPARED, AbsentFaults, ExtraFaults, ClaimFaults;
  }

  /** Under another rule digest nothing else is checked but the schema. */
  lemma {:induction false} OtherRulesReport(b: Build, bundle: Value, ds: seq<Value>, m: Mismatch)
    requires TextOf(Field(bundle, Ascii("derivationId"))) != b.derivationId
    ensures m in VerdictWith(b, bundle, ds).mismatches <==>
      m == DerivationMismatch || (m == SchemaMismatch && Due(b, bundle, ds, m))
  {
    hide Field;
  }

  /** `other` is `bundle` with the claim at place `i` replaced by `x`. */
  ghost predicate Replaced(bundle: Value, other: Value, i: nat, x: Value) {
    && Field(other, K_SCHEMA) == Field(bundle, K_SCHEMA) && Field(other, K_DERIVATION) == Field(bundle, K_DERIVATION)
    && Field(other, K_SOURCES) == Field(bundle, K_SOURCES) && i < |Items(Field(bundle, K_CLAIMS))|
    && Items(Field(other, K_CLAIMS)) == Items(Field(bundle, K_CLAIMS))[i := x]
  }

  lemma {:induction false} StatedInPlace(cs: seq<Value>, n: nat, i: nat, x: Value, id: Value)
    requires i < n <= |cs| && StatedFor(cs, n, id) == Some(cs[i]) && IdOf(cs[i]) == IdOf(x) == id
    requires forall j :: i < j < n ==> IdOf(cs[j]) != id
    ensures StatedFor(cs[i := x], n, id) == Some(x)
  {
    hide IdOf;
    if i < n - 1 {
      StatedInPlace(cs, n - 1, i, x, id);
    }
  }

  /** Forging any compared field of the claim a passing bundle holds under an id is noticed, and reported
      under that id and field. */
  lemma {:induction false} ForgedFieldIsReported(b: Build, w: Window, bundle: Value, other: Value, i: nat, x: Value,
      k: Text)
    requires VerdictOf(b, w, bundle).Ok() && Replaced(bundle, other, i, x)
    requires var cs := Items(Field(bundle, K_CLAIMS));
      && IdOf(x) == IdOf(cs[i]) && (forall j :: i < j < |cs| ==> IdOf(cs[j]) != IdOf(x))
      && k in COMPARED && !SameField(x, cs[i], k)
    ensures FieldDiffers(IdOf(x), k) in VerdictOf(b, w, other).mismatches
  {
    hide Field, Recomputed, IdOf, FieldText, VerdictWith, SameClaims, AllIntact, Stated, StatedFor, SameField;
    var cs, ds := Items(Field(bundle, K_CLAIMS)), Recomputed(b, w, bundle);
    PassesExactly(b, w, bundle);
    ForgedField(cs, ds, i, x, k);
    SameSources(b, w, bundle, other);
    ReportsExactly(b, other, ds, FieldDiffers(IdOf(x), k));
  }

  lemma {:induction false} SameSources(b: Build, w: Window, bundle: Value, other: Value)
    requires Field(other, K_SOURCES) == Field(bundle, K_SOURCES)
    ensures Recomputed(b, w, other) == Recomputed(b, w, bundle)
  {
  }

  lemma {:induction false} ForgedField(cs: seq<Value>, ds: seq<Value>, i: nat, x: Value, k: Text)
    requires SameClaims(cs, ds) && i < |cs| && IdOf(x) == IdOf(cs[i])
    requires (forall j :: i < j < |cs| ==> IdOf(cs[j]) != IdOf(x)) && k in COMPARED && !SameField(x, cs[i], k)
    ensures Stated(cs[i := x], IdOf(x)) == Some(x) && Stated(ds, IdOf(x)).Some?
    ensures !SameField(x, Stated(ds, IdOf(x)).value, k)
  {
    hide IdOf, FieldText, Agrees;
    var id := IdOf(x);
    assert SameClaim(cs, ds, id);
    LastStated(cs, |cs|, i, id);
    StatedInPlace(cs, |cs|, i, x, id);
    AgreesOn(cs[i], Stated(ds, id).value, k);
  }

  lemma {:induction false} AgreesOn(c: Value, d: Value, k: Text)
    requires Agrees(c, d) && k in COMPARED
    ensures SameField(c, d, k)
  {
    hide FieldText;
  }

  lemma {:induction false} LastStated(cs: seq<Value>, n: nat, i: nat, id: Value)
    requires i < n <= |cs| && IdOf(cs[i]) == id && forall j :: i < j < n ==> IdOf(cs[j]) != id
    ensures StatedFor(cs, n, id) == Some(cs[i])
  {
    hide IdOf;
    if i < n - 1 {
      LastStated(cs, n - 1, i, id);
    }
  }
}
