/** The public claim set and its commitment (packages/evidence/src/claimset.ts). */
module ClaimSet {
  import opened Utf
  import opened Numbers
  import opened Json
  import opened Canonical
  import opened Access
  import opened Reading
  import opened Verify
  import opened VerifySealed
  import Evidence
  import Envelope

  const CLAIMS_SCHEMA := Ascii("zegel.claims.v1")
  const K_CHAINS := Ascii("chains")

  /** An object with the fields named, in order. */
  function Pick(v: Value, keys: seq<Text>): (r: seq<Member>)
    ensures |r| == |keys| && forall i :: 0 <= i < |r| ==> r[i] == Member(keys[i], Field(v, keys[i]))
  {
    seq(|keys|, i requires 0 <= i < |keys| => Member(keys[i], Field(v, keys[i])))
  }

  /** What a claim shows in public: everything but the measured value. */
  const CLAIM_FIELDS := [K_ID, K_STATEMENT, K_OP, K_THRESHOLD, K_UNIT, K_PASSED]

  /** `stripActual`. */
  function Stripped(c: Value): Value {
    Obj(Pick(c, CLAIM_FIELDS) + [Member(K_SOURCES, Arr(Items(Field(c, K_SOURCES))))])
  }

  function StrippedAll(cs: seq<Value>): (r: seq<Value>)
    ensures |r| == |cs| && forall i :: 0 <= i < |r| ==> r[i] == Stripped(cs[i])
  {
    seq(|cs|, i requires 0 <= i < |cs| => Stripped(cs[i]))
  }

  const CLAIM_SET_FIELDS :=
    [K_SCHEMA, Evidence.K_REFERENCE, K_CHAINS, K_WINDOW, K_CLAIMS, Evidence.K_DERIVED_AT, K_DERIVATION]

  function ChainsOf(bundle: Value): Value { Arr(Items(Field(Field(bundle, Evidence.K_SUBJECT), K_CHAINS))) }

  function WindowOf(bundle: Value): Value { Obj(Pick(Field(bundle, K_WINDOW), [K_FROM, K_TO])) }

  function ClaimSetValues(bundle: Value): (r: seq<Value>)
    ensures |r| == 7
  {
    [
      Str(CLAIMS_SCHEMA),
      Field(bundle, Evidence.K_REFERENCE),
      ChainsOf(bundle),
      WindowOf(bundle),
      Arr(StrippedAll(Items(Field(bundle, K_CLAIMS)))),
      Field(bundle, Evidence.K_DERIVED_AT),
      Field(bundle, K_DERIVATION)
    ]
  }

  function Zip(keys: seq<Text>, values: seq<Value>): (r: seq<Member>)
    requires |keys| == |values|
    ensures |r| == |keys| && forall i :: 0 <= i < |r| ==> r[i] == Member(keys[i], values[i])
  {
    seq(|keys|, i requires 0 <= i < |keys| => Member(keys[i], values[i]))
  }

  function ClaimSetMembers(bundle: Value): seq<Member> { Zip(CLAIM_SET_FIELDS, ClaimSetValues(bundle)) }

  /** `toClaimSet`. */
  function ToClaimSet(bundle: Value): Value { Obj(ClaimSetMembers(bundle)) }

  /** `commitmentFor`. */
  function CommitmentFor(sha: Bytes -> Text, bundle: Value): Option<Text> { Digest(sha, ToClaimSet(bundle)) }

  // Values that encode alike

  /** Fit to be a member: left out, or encodable. */
  ghost predicate Alike(v: Value, w: Value) {
    (v == Undefined <==> w == Undefined)
    && (v != Undefined ==> Encodable(v) && Proper(v) && Encodable(w) && Proper(w) && Norm(v) == Norm(w))
  }

  ghost predicate MembersAlike(ms: seq<Member>, ns: seq<Member>) {
    |ms| == |ns| && forall i :: 0 <= i < |ms| ==> ms[i].key == ns[i].key && Alike(ms[i].value, ns[i].value)
  }

  lemma {:induction false} LookupAlike(ms: seq<Member>, ns: seq<Member>, k: Text)
    requires MembersAlike(ms, ns)
    ensures Lookup(ms, k).Some? <==> Lookup(ns, k).Some?
    ensures Lookup(ms, k).Some? ==> Alike(Lookup(ms, k).value, Lookup(ns, k).value) && Lookup(ms, k).value != Undefined
    decreases |ms|
  {
    hide Encodable, Proper, Norm;
    if ms != [] {
      LookupAlike(ms[1..], ns[1..], k);
    }
  }

  /** Objects with the same keys and alike members are alike. */
  lemma {:induction false} ObjectsAlike(ms: seq<Member>, ns: seq<Member>)
    requires DistinctKeys(ms) && MembersAlike(ms, ns)
    ensures Alike(Obj(ms), Obj(ns))
  {
    MembersFit(ms, ns);
    MembersEquivalent(ms, ns);
    NormEquivalent(Obj(ms), Obj(ns));
    hide Encodable, Proper, Norm, Equivalent, MembersAlike;
  }

  lemma {:induction false} MembersEquivalent(ms: seq<Member>, ns: seq<Member>)
    requires MembersAlike(ms, ns)
    ensures Equivalent(Obj(ms), Obj(ns))
  {
    hide Encodable, Proper, Norm, Lookup, MembersAlike;
    forall k
      ensures Lookup(ms, k).Some? <==> Lookup(ns, k).Some?
      ensures Lookup(ms, k).Some? ==> Equivalent(Lookup(ms, k).value, Lookup(ns, k).value)
    {
      LookupAlike(ms, ns, k);
      if Lookup(ms, k).Some? {
        NormEquivalent(Lookup(ms, k).value, Lookup(ns, k).value);
      }
    }
  }

  lemma {:induction false} MembersFit(ms: seq<Member>, ns: seq<Member>)
    requires DistinctKeys(ms) && MembersAlike(ms, ns)
    ensures Encodable(Obj(ms)) && Proper(Obj(ms)) && Encodable(Obj(ns)) && Proper(Obj(ns))
  {
    forall i, j | 0 <= i < j < |ns|
      ensures ns[i].key != ns[j].key
    {
      assert ms[i].key == ns[i].key && ms[j].key == ns[j].key;
    }
    forall i | 0 <= i < |ms|
      ensures (ms[i].value == Undefined || (Encodable(ms[i].value) && Proper(ms[i].value)))
      ensures (ns[i].value == Undefined || (Encodable(ns[i].value) && Proper(ns[i].value)))
    {
      assert Alike(ms[i].value, ns[i].value);
    }
  }

  lemma {:induction false} ArraysAlike(a: seq<Value>, b: seq<Value>)
    requires |a| == |b| && forall i :: 0 <= i < |a| ==> Alike(Slot(a[i]), Slot(b[i]))
    ensures Alike(Arr(a), Arr(b))
  {
    forall i | 0 <= i < |a|
      ensures a[i] == Undefined || (Encodable(a[i]) && Proper(a[i]))
      ensures b[i] == Undefined || (Encodable(b[i]) && Proper(b[i]))
      ensures NormItems(a)[i] == NormItems(b)[i]
    {
      assert Alike(Slot(a[i]), Slot(b[i]));
    }
    assert NormItems(a) == NormItems(b);
  }

  // The commitment of an opened bundle

  lemma {:induction false} FieldAlike(v: Value, k: Text)
    requires Readable(v)
    ensures Alike(Field(Norm(v), k), Field(v, k)) && Readable(Field(v, k))
    ensures Field(Norm(v), k) == Norm(Field(v, k))
  {
    FieldNorm(v, k);
    FieldReadable(v, k);
    var f := Field(v, k);
    if f != Undefined {
      ParseEncode(f);
      CanonicalPlain(Norm(f));
    }
  }

  lemma {:induction false} PickAlike(v: Value, keys: seq<Text>)
    requires Readable(v)
    ensures MembersAlike(Pick(Norm(v), keys), Pick(v, keys))
  {
    forall i | 0 <= i < |keys|
      ensures Alike(Field(Norm(v), keys[i]), Field(v, keys[i]))
    {
      FieldAlike(v, keys[i]);
    }
  }

  lemma {:induction false} SlotAlike(v: Value)
    requires Readable(v)
    ensures Alike(Slot(Norm(Slot(v))), Slot(v))
  {
    ParseEncode(Slot(v));
    CanonicalPlain(Norm(Slot(v)));
    hide Parse;
  }

  lemma {:induction false} ItemsAlike(v: Value)
    requires Readable(v)
    ensures Alike(Arr(Items(Norm(v))), Arr(Items(v)))
  {
    ItemsNorm(v);
    forall i | 0 <= i < |Items(v)|
      ensures Alike(Slot(Items(Norm(v))[i]), Slot(Items(v)[i]))
    {
      SlotAlike(Items(v)[i]);
    }
    ArraysAlike(Items(Norm(v)), Items(v));
  }

  lemma {:induction false} ClaimKeysDistinct(ms: seq<Member>)
    requires |ms| == 7 && (forall i :: 0 <= i < 6 ==> ms[i].key == CLAIM_FIELDS[i]) && ms[6].key == K_SOURCES
    ensures DistinctKeys(ms)
  {
    assert |K_ID| == 2 && |K_STATEMENT| == 9 && |K_OP| == 2 && |K_THRESHOLD| == 9 && |K_UNIT| == 4 && |K_PASSED| == 6;
    assert |K_SOURCES| == 7 && K_ID[0] == 105 && K_OP[0] == 111 && K_STATEMENT[0] == 115 && K_THRESHOLD[0] == 116;
    assert ms[0].key == K_ID && ms[1].key == K_STATEMENT && ms[2].key == K_OP && ms[3].key == K_THRESHOLD;
    assert ms[4].key == K_UNIT && ms[5].key == K_PASSED;
  }

  lemma {:induction false} StrippedAlike(c: Value)
    requires Readable(c)
    ensures Alike(Stripped(Norm(Slot(c))), Stripped(c))
  {
    var n := Norm(Slot(c));
    if c != Undefined {
      PickAlike(c, CLAIM_FIELDS);
      FieldAlike(c, K_SOURCES);
      ItemsAlike(Field(c, K_SOURCES));
    } else {
      ArraysAlike([], []);
    }
    StrippedMembers(n, c);
  }

  lemma {:induction false} StrippedMembers(n: Value, c: Value)
    requires MembersAlike(Pick(n, CLAIM_FIELDS), Pick(c, CLAIM_FIELDS))
    requires Alike(Arr(Items(Field(n, K_SOURCES))), Arr(Items(Field(c, K_SOURCES))))
    ensures Alike(Stripped(n), Stripped(c))
  {
    hide Alike, Field, Items;
    ClaimKeysDistinct(Stripped(n).members);
    ObjectsAlike(Stripped(n).members, Stripped(c).members);
  }

  lemma {:induction false} ClaimsAlike(a: seq<Value>, b: seq<Value>)
    requires |a| == |b| && forall i :: 0 <= i < |a| ==> Readable(a[i]) && b[i] == Norm(Slot(a[i]))
    ensures Alike(Arr(StrippedAll(b)), Arr(StrippedAll(a)))
  {
    forall i | 0 <= i < |a|
      ensures Alike(Slot(StrippedAll(b)[i]), Slot(StrippedAll(a)[i]))
    {
      StrippedAlike(a[i]);
    }
    ArraysAlike(StrippedAll(b), StrippedAll(a));
  }

  lemma {:induction false} ClaimSetKeysDistinct(values: seq<Value>)
    requires |values| == 7
    ensures DistinctKeys(Zip(CLAIM_SET_FIELDS, values))
  {
    assert |K_SCHEMA| == 6 && |Evidence.K_REFERENCE| == 11 && |K_CHAINS| == 6 && |K_WINDOW| == 6 && |K_CLAIMS| == 6;
    assert |Evidence.K_DERIVED_AT| == 9 && |K_DERIVATION| == 12;
    assert K_SCHEMA[0] == 115 && K_WINDOW[0] == 119 && K_CHAINS[1] == 104 && K_CLAIMS[1] == 108 && K_SCHEMA[1] == 99;
    assert K_CHAINS[0] == 99 && K_CLAIMS[0] == 99;
  }

  lemma {:induction false} WindowAlike(bundle: Value)
    requires Readable(bundle)
    ensures Alike(WindowOf(Norm(bundle)), WindowOf(bundle))
  {
    hide Alike, MembersAlike, Norm, Readable, Field;
    var keys := [K_FROM, K_TO];
    FieldAlike(bundle, K_WINDOW);
    var w := Field(bundle, K_WINDOW);
    PickAlike(w, keys);
    WindowKeysDistinct(Pick(Norm(w), keys));
    ObjectsAlike(Pick(Norm(w), keys), Pick(w, keys));
  }

  lemma {:induction false} WindowKeysDistinct(ms: seq<Member>)
    requires |ms| == 2 && ms[0].key == K_FROM && ms[1].key == K_TO
    ensures DistinctKeys(ms)
  {
    assert |K_FROM| == 4 && |K_TO| == 2;
  }

  /** Anyone who opens a sealed bundle computes the commitment that was published for it. */
  lemma {:induction false} OpenedCommitmentSame(sha: Bytes -> Text, bundle: Value)
    requires Encodable(bundle) && Proper(bundle)
    ensures CommitmentFor(sha, bundle).Some? && CommitmentFor(sha, Norm(bundle)) == CommitmentFor(sha, bundle)
  {
    var v, w := Norm(bundle), bundle;
    FieldAlike(w, Evidence.K_REFERENCE);
    FieldAlike(w, Evidence.K_SUBJECT);
    FieldAlike(Field(w, Evidence.K_SUBJECT), K_CHAINS);
    ItemsAlike(Field(Field(w, Evidence.K_SUBJECT), K_CHAINS));
    WindowAlike(w);
    FieldAlike(w, K_CLAIMS);
    ItemsNorm(Field(w, K_CLAIMS));
    ClaimsAlike(Items(Field(w, K_CLAIMS)), Items(Field(v, K_CLAIMS)));
    FieldAlike(w, Evidence.K_DERIVED_AT);
    FieldAlike(w, K_DERIVATION);
    ClaimSetAlike(v, w);
    ParseEncode(ToClaimSet(w));
    ParseEncode(ToClaimSet(v));
    hide ToClaimSet, Norm, Parse, Field;
  }

  lemma {:induction false} ClaimSetAlike(v: Value, w: Value)
    requires Alike(Field(v, Evidence.K_REFERENCE), Field(w, Evidence.K_REFERENCE))
    requires Alike(ChainsOf(v), ChainsOf(w)) && Alike(WindowOf(v), WindowOf(w))
    requires Alike(Arr(StrippedAll(Items(Field(v, K_CLAIMS)))), Arr(StrippedAll(Items(Field(w, K_CLAIMS)))))
    requires Alike(Field(v, Evidence.K_DERIVED_AT), Field(w, Evidence.K_DERIVED_AT))
    requires Alike(Field(v, K_DERIVATION), Field(w, K_DERIVATION))
    ensures Alike(ToClaimSet(v), ToClaimSet(w))
  {
    hide Alike, MembersAlike, Zip, Field, StrippedAll, ChainsOf, WindowOf;
    SchemaAlike();
    SevenAlike(ClaimSetValues(v), ClaimSetValues(w));
    hide ClaimSetValues;
    ClaimSetKeysDistinct(ClaimSetValues(v));
    ZipAlike(CLAIM_SET_FIELDS, ClaimSetValues(v), ClaimSetValues(w));
    ObjectsAlike(ClaimSetMembers(v), ClaimSetMembers(w));
  }

  lemma {:induction false} ZipAlike(keys: seq<Text>, a: seq<Value>, b: seq<Value>)
    requires |keys| == |a| == |b| && forall i :: 0 <= i < |a| ==> Alike(a[i], b[i])
    ensures MembersAlike(Zip(keys, a), Zip(keys, b))
  {
    hide Alike;
  }

  lemma {:induction false} SevenAlike(a: seq<Value>, b: seq<Value>)
    requires |a| == |b| == 7
    requires Alike(a[0], b[0]) && Alike(a[1], b[1]) && Alike(a[2], b[2]) && Alike(a[3], b[3])
    requires Alike(a[4], b[4]) && Alike(a[5], b[5]) && Alike(a[6], b[6])
    ensures forall i :: 0 <= i < 7 ==> Alike(a[i], b[i])
  {
    hide Alike;
  }

  lemma {:induction false} SchemaAlike()
    ensures Alike(Str(CLAIMS_SCHEMA), Str(CLAIMS_SCHEMA))
  {
  }

  // What the commitment binds, and what it does not show

  /** Two bundles that share a commitment show equivalent claim sets, or two texts collide. */
  lemma {:induction false} CommitmentBinds(sha: Bytes -> Text, a: Value, b: Value)
    requires Encodable(ToClaimSet(a)) && Proper(ToClaimSet(a)) && Encodable(ToClaimSet(b)) && Proper(ToClaimSet(b))
    requires CommitmentFor(sha, a) == CommitmentFor(sha, b)
    ensures Encode(ToClaimSet(a)).Some? && Encode(ToClaimSet(b)).Some?
    ensures Equivalent(ToClaimSet(a), ToClaimSet(b))
            || Collision(sha, Utf8Encode(Encode(ToClaimSet(a)).value), Utf8Encode(Encode(ToClaimSet(b)).value))
  {
    DigestBinds(sha, ToClaimSet(a), ToClaimSet(b));
  }

  lemma {:induction false} PickField(v: Value, keys: seq<Text>, i: nat, last: seq<Member>)
    requires i < |keys| && DistinctKeys(Pick(v, keys) + last)
    ensures Field(Obj(Pick(v, keys) + last), keys[i]) == Field(v, keys[i])
  {
    hide Field;
    FieldAt(Pick(v, keys) + last, i);
  }

  const SHOWN :=
    {Ascii("id"), Ascii("statement"), Ascii("op"), Ascii("threshold"), Ascii("unit"), Ascii("passed")}

  /** The public form of a claim: its own id, statement, operator, threshold, unit, outcome and list of
      sources, and nothing else; in particular not the measured value. */
  ghost predicate Publishes(p: Value, c: Value) {
    && (forall k :: k in SHOWN ==> Field(p, k) == Field(c, k))
    && Field(p, K_SOURCES) == Arr(Items(Field(c, K_SOURCES)))
    && (forall k :: k !in SHOWN && k != K_SOURCES ==> Field(p, k) == Undefined)
    && Field(p, K_ACTUAL) == Undefined
  }

  lemma {:induction false} ShownAt(k: Text)
    ensures k in SHOWN <==> exists i :: 0 <= i < 6 && CLAIM_FIELDS[i] == k
  {
    assert CLAIM_FIELDS[0] == K_ID && CLAIM_FIELDS[1] == K_STATEMENT && CLAIM_FIELDS[2] == K_OP;
    assert CLAIM_FIELDS[3] == K_THRESHOLD && CLAIM_FIELDS[4] == K_UNIT && CLAIM_FIELDS[5] == K_PASSED;
  }

  lemma {:induction false} ActualNotShown()
    ensures K_ACTUAL !in SHOWN && K_ACTUAL != K_SOURCES && K_SOURCES !in SHOWN
  {
    assert |K_ACTUAL| == 6 && |K_ID| == 2 && |K_STATEMENT| == 9 && |K_OP| == 2 && |K_THRESHOLD| == 9 && |K_UNIT| == 4;
    assert |K_PASSED| == 6 && |K_SOURCES| == 7 && K_ACTUAL[0] == 97 && K_PASSED[0] == 112;
  }

  lemma {:induction false} StrippedPublishes(c: Value)
    ensures Publishes(Stripped(c), c)
  {
    hide Field;
    var last := [Member(K_SOURCES, Arr(Items(Field(c, K_SOURCES))))];
    var ms := Pick(c, CLAIM_FIELDS) + last;
    ClaimKeysDistinct(ms);
    ActualNotShown();
    forall k
      ensures k in SHOWN ==> Field(Obj(ms), k) == Field(c, k)
      ensures k !in SHOWN && k != K_SOURCES ==> Field(Obj(ms), k) == Undefined
    {
      ShownAt(k);
      if k in SHOWN {
        var i :| 0 <= i < 6 && CLAIM_FIELDS[i] == k;
        PickField(c, CLAIM_FIELDS, i, last);
      } else if k != K_SOURCES {
        Evidence.MissingField(ms, k);
      }
    }
    FieldAt(ms, 6);
  }

  /** The two dates of a window and nothing else. */
  ghost predicate ShowsWindow(shown: Value, w: Value) {
    && Field(shown, Ascii("from")) == Field(w, Ascii("from")) && Field(shown, Ascii("to")) == Field(w, Ascii("to"))
    && forall k :: k != Ascii("from") && k != Ascii("to") ==> Field(shown, k) == Undefined
  }

  lemma {:induction false} WindowShown(bundle: Value)
    ensures ShowsWindow(WindowOf(bundle), Field(bundle, K_WINDOW))
  {
    hide Field;
    var ms := WindowOf(bundle).members;
    assert |K_FROM| == 4 && |K_TO| == 2;
    FieldAt(ms, 0);
    FieldAt(ms, 1);
    forall k | k != Ascii("from") && k != Ascii("to")
      ensures Field(WindowOf(bundle), k) == Undefined
    {
      Evidence.MissingField(ms, k);
    }
  }

  /** The chains of the subject, and nothing else of it; the two dates of the window; and no source. */
  ghost predicate ShowsSubject(s: Value, bundle: Value) {
    && Field(s, Ascii("chains")) == Arr(Items(Field(Field(bundle, Ascii("subject")), Ascii("chains"))))
    && ShowsWindow(Field(s, Ascii("window")), Field(bundle, Ascii("window")))
    && Field(s, Ascii("subject")) == Undefined && Field(s, Ascii("sources")) == Undefined
  }

  /** Reference, date and rule digest under the schema of claim sets. */
  predicate ShowsHeader(s: Value, bundle: Value) {
    && Field(s, Ascii("schema")) == Str(Ascii("zegel.claims.v1"))
    && Field(s, Ascii("referenceId")) == Field(bundle, Ascii("referenceId"))
    && Field(s, Ascii("derivedAt")) == Field(bundle, Ascii("derivedAt"))
    && Field(s, Ascii("derivationId")) == Field(bundle, Ascii("derivationId"))
  }

  /** What a claim set shows of a bundle: its reference, chains, window, date and rule digest, and each
      claim in public form; of the subject nothing but the chains, and no source. */
  lemma {:induction false} ClaimSetShows(bundle: Value)
    ensures ShowsHeader(ToClaimSet(bundle), bundle) && ShowsSubject(ToClaimSet(bundle), bundle)
    ensures var cs, ps := Items(Field(bundle, K_CLAIMS)), Items(Field(ToClaimSet(bundle), K_CLAIMS));
      |ps| == |cs| && forall i :: 0 <= i < |cs| ==> Publishes(ps[i], cs[i])
    ensures Field(ToClaimSet(bundle), K_CLAIMS) == Arr(StrippedAll(Items(Field(bundle, K_CLAIMS))))
  {
    hide Field, Publishes, Stripped, WindowOf, ShowsWindow;
    var ms := ClaimSetMembers(bundle);
    ClaimSetKeysDistinct(ClaimSetValues(bundle));
    FieldAt(ms, 0);
    FieldAt(ms, 1);
    FieldAt(ms, 2);
    FieldAt(ms, 3);
    FieldAt(ms, 4);
    FieldAt(ms, 5);
    FieldAt(ms, 6);
    NotInClaimSet(ms);
    WindowShown(bundle);
    var cs := Items(Field(bundle, K_CLAIMS));
    forall i | 0 <= i < |cs|
      ensures Publishes(StrippedAll(cs)[i], cs[i])
    {
      StrippedPublishes(cs[i]);
    }
  }

  lemma {:induction false} NotInClaimSet(ms: seq<Member>)
    requires |ms| == 7 && forall i :: 0 <= i < 7 ==> ms[i].key == CLAIM_SET_FIELDS[i]
    ensures Field(Obj(ms), Evidence.K_SUBJECT) == Undefined && Field(Obj(ms), K_SOURCES) == Undefined
  {
    hide Field;
    assert |K_SCHEMA| == 6 && |Evidence.K_REFERENCE| == 11 && |K_CHAINS| == 6 && |K_WINDOW| == 6 && |K_CLAIMS| == 6;
    assert |Evidence.K_DERIVED_AT| == 9 && |K_DERIVATION| == 12 && |K_SOURCES| == 7 && |Evidence.K_SUBJECT| == 7;
    assert CLAIM_SET_FIELDS[0] == K_SCHEMA && CLAIM_SET_FIELDS[1] == Evidence.K_REFERENCE;
    assert CLAIM_SET_FIELDS[2] == K_CHAINS && CLAIM_SET_FIELDS[3] == K_WINDOW && CLAIM_SET_FIELDS[4] == K_CLAIMS;
    assert CLAIM_SET_FIELDS[5] == Evidence.K_DERIVED_AT && CLAIM_SET_FIELDS[6] == K_DERIVATION;
    Evidence.MissingField(ms, Evidence.K_SUBJECT);
    Evidence.MissingField(ms, K_SOURCES);
  }

  const K_ADDRESS_OF_SUBJECT := Ascii("address")

  /** The claims differ in nothing but the measured value. */
  ghost predicate SameButMeasured(c: Value, d: Value) {
    forall k :: k != K_ACTUAL ==> Field(c, k) == Field(d, k)
  }

  /** The bundles differ in nothing but the subject's address, the sources and the values measured. */
  ghost predicate SamePublicly(a: Value, b: Value) {
    && (forall k :: k !in {Evidence.K_SUBJECT, K_SOURCES, K_CLAIMS} ==> Field(a, k) == Field(b, k))
    && (forall k :: k != K_ADDRESS_OF_SUBJECT ==>
      Field(Field(a, Evidence.K_SUBJECT), k) == Field(Field(b, Evidence.K_SUBJECT), k))
    && |Items(Field(a, K_CLAIMS))| == |Items(Field(b, K_CLAIMS))|
    && forall i :: 0 <= i < |Items(Field(a, K_CLAIMS))| ==>
      SameButMeasured(Items(Field(a, K_CLAIMS))[i], Items(Field(b, K_CLAIMS))[i])
  }

  lemma {:induction false} StrippedHides(c: Value, d: Value)
    requires SameButMeasured(c, d)
    ensures Stripped(c) == Stripped(d)
  {
    hide Field;
    ActualNotShown();
    forall i | 0 <= i < 6
      ensures Pick(c, CLAIM_FIELDS)[i] == Pick(d, CLAIM_FIELDS)[i]
    {
      ShownAt(CLAIM_FIELDS[i]);
    }
    assert Pick(c, CLAIM_FIELDS) == Pick(d, CLAIM_FIELDS);
  }

  lemma {:induction false} PublicKeys()
    ensures {Evidence.K_REFERENCE, K_WINDOW, Evidence.K_DERIVED_AT, K_DERIVATION}
         !! {Evidence.K_SUBJECT, K_SOURCES, K_CLAIMS}
    ensures K_CHAINS != K_ADDRESS_OF_SUBJECT
  {
    assert |Evidence.K_REFERENCE| == 11 && |K_CHAINS| == 6 && |K_WINDOW| == 6 && |K_CLAIMS| == 6;
    assert |Evidence.K_DERIVED_AT| == 9 && |K_DERIVATION| == 12 && |K_SOURCES| == 7 && |Evidence.K_SUBJECT| == 7;
    assert K_WINDOW[0] == 119 && K_CLAIMS[0] == 99 && |K_ADDRESS_OF_SUBJECT| == 7;
  }

  /** The commitment shows nothing of the address, the responses and the measured values: bundles that
      differ only there share it. */
  lemma {:induction false} CommitmentHides(sha: Bytes -> Text, a: Value, b: Value)
    requires SamePublicly(a, b)
    ensures CommitmentFor(sha, a) == CommitmentFor(sha, b)
  {
    hide Field, Digest, Stripped, Pick;
    PublicKeys();
    var cs, ds := Items(Field(a, K_CLAIMS)), Items(Field(b, K_CLAIMS));
    forall i | 0 <= i < |cs|
      ensures Stripped(cs[i]) == Stripped(ds[i])
    {
      StrippedHides(cs[i], ds[i]);
    }
    assert StrippedAll(cs) == StrippedAll(ds);
    assert ChainsOf(a) == ChainsOf(b);
  }

  lemma {:induction false} EquivalentFields(v: Value, w: Value, k: Text)
    requires v.Obj? && Equivalent(v, w)
    ensures Field(v, k) == Undefined <==> Field(w, k) == Undefined
    ensures Field(v, k) != Undefined ==> Equivalent(Field(v, k), Field(w, k))
  {
    LookupBelow(v.members, k);
  }

  /** A published claim says something under a key exactly when the other does, and then the same. */
  ghost predicate SaysSame(c: Value, d: Value, k: Text) {
    (Field(c, k) == Undefined <==> Field(d, k) == Undefined)
    && (Field(c, k) != Undefined ==> Equivalent(Field(c, k), Field(d, k)))
  }

  /** Whoever shows another claim set under the same commitment states, claim by claim, the same id,
      statement, operator, threshold, unit and outcome, unless two texts collide. */
  lemma {:induction false} CommitmentFixesOutcomes(sha: Bytes -> Text, a: Value, b: Value)
    requires Encodable(ToClaimSet(a)) && Proper(ToClaimSet(a)) && Encodable(ToClaimSet(b)) && Proper(ToClaimSet(b))
    requires CommitmentFor(sha, a) == CommitmentFor(sha, b)
    requires Encode(ToClaimSet(a)).Some? && Encode(ToClaimSet(b)).Some?
    requires !Collision(sha, Utf8Encode(Encode(ToClaimSet(a)).value), Utf8Encode(Encode(ToClaimSet(b)).value))
    ensures var cs, ds := Items(Field(a, K_CLAIMS)), Items(Field(b, K_CLAIMS));
      && |cs| == |ds|
      && (forall i, k :: 0 <= i < |cs| && k in SHOWN ==> SaysSame(cs[i], ds[i], k))
      && forall i :: 0 <= i < |cs| && Field(cs[i], K_PASSED).Bool? ==> Field(ds[i], K_PASSED) == Field(cs[i], K_PASSED)
  {
    CommitmentBinds(sha, a, b);
    EquivalentFields(ToClaimSet(a), ToClaimSet(b), K_CLAIMS);
    ClaimSetShows(a);
    ClaimSetShows(b);
    hide ToClaimSet, Encode, Encodable, Proper, Field, Collision, SaysSame;
    SamePublished(a, b);
    SameOutcomes(Items(Field(a, K_CLAIMS)), Items(Field(b, K_CLAIMS)));
  }

  lemma {:induction false} SameOutcomes(cs: seq<Value>, ds: seq<Value>)
    requires |cs| == |ds| && forall i, k :: 0 <= i < |cs| && k in SHOWN ==> SaysSame(cs[i], ds[i], k)
    ensures forall i :: 0 <= i < |cs| && Field(cs[i], K_PASSED).Bool? ==>
      Field(ds[i], K_PASSED) == Field(cs[i], K_PASSED)
  {
    hide Field;
    forall i | 0 <= i < |cs| && Field(cs[i], K_PASSED).Bool?
      ensures Field(ds[i], K_PASSED) == Field(cs[i], K_PASSED)
    {
      assert K_PASSED in SHOWN;
      assert SaysSame(cs[i], ds[i], K_PASSED);
      EquivalentBool(Field(cs[i], K_PASSED), Field(ds[i], K_PASSED));
    }
  }

  lemma {:induction false} EquivalentBool(v: Value, w: Value)
    requires v.Bool? && Equivalent(v, w)
    ensures v == w
  {
  }

  lemma {:induction false} SamePublished(a: Value, b: Value)
    requires Field(ToClaimSet(a), K_CLAIMS) == Arr(StrippedAll(Items(Field(a, K_CLAIMS))))
    requires Field(ToClaimSet(b), K_CLAIMS) == Arr(StrippedAll(Items(Field(b, K_CLAIMS))))
    requires Equivalent(Field(ToClaimSet(a), K_CLAIMS), Field(ToClaimSet(b), K_CLAIMS))
    ensures var cs, ds := Items(Field(a, K_CLAIMS)), Items(Field(b, K_CLAIMS));
      && |cs| == |ds|
      && forall i, k :: 0 <= i < |cs| && k in SHOWN ==> SaysSame(cs[i], ds[i], k)
  {
    var cs, ds := Items(Field(a, K_CLAIMS)), Items(Field(b, K_CLAIMS));
    hide Field, ToClaimSet;
    forall i, k | 0 <= i < |cs| && k in SHOWN
      ensures SaysSame(cs[i], ds[i], k)
    {
      StrippedPublishes(cs[i]);
      StrippedPublishes(ds[i]);
      EquivalentFields(Stripped(cs[i]), Stripped(ds[i]), k);
    }
  }
}
