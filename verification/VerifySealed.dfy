/** Checking a bundle gives the same verdict before it is sealed and after it is opened. */
module VerifySealed {
  import opened Utf
  import opened Numbers
  import opened Json
  import opened Canonical
  import opened Access
  import opened Derive
  import opened Claims
  import opened Reading
  import opened Verify
  import opened VerifyLaws
  import Envelope

  // The comparison sees of a claim only what it shows

  lemma {:induction false} SameAt(bs: seq<Value>, cs: seq<Value>, i: nat)
    requires ShowAll(bs) == ShowAll(cs) && i < |bs| == |cs|
    ensures Show(bs[i]) == Show(cs[i]) && IdOf(bs[i]) == IdOf(cs[i])
  {
    assert ShowAll(bs)[i] == ShowAll(cs)[i];
    assert Show(bs[i]).id == Show(cs[i]).id;
  }

  lemma {:induction false} SameStated(bs: seq<Value>, cs: seq<Value>, n: nat, id: Value)
    requires ShowAll(bs) == ShowAll(cs) && n <= |bs| == |cs|
    ensures StatedFor(bs, n, id).Some? <==> StatedFor(cs, n, id).Some?
    ensures StatedFor(bs, n, id).Some? ==> Show(StatedFor(bs, n, id).value) == Show(StatedFor(cs, n, id).value)
  {
    hide IdOf, Show;
    if n > 0 {
      SameAt(bs, cs, n - 1);
      SameStated(bs, cs, n - 1, id);
    }
  }

  lemma {:induction false} SameIds(bs: seq<Value>, cs: seq<Value>, n: nat)
    requires ShowAll(bs) == ShowAll(cs) && n <= |bs| == |cs|
    ensures IdsOf(bs, n) == IdsOf(cs, n)
  {
    hide IdOf, Show;
    if n > 0 {
      SameAt(bs, cs, n - 1);
      SameIds(bs, cs, n - 1);
    }
  }

  lemma {:induction false} SameTexts(a: Value, c: Value, d: Value, i: nat)
    requires Show(a) == Show(c) && i < 7
    ensures SameText(a, d, i) <==> SameText(c, d, i)
  {
    hide FieldText;
    ComparedAt(FieldAtIndex(i));
  }

  lemma {:induction false} SameDiffering(a: Value, c: Value, d: Value, id: Value)
    requires Show(a) == Show(c)
    ensures DifferingFields(a, d, id) == DifferingFields(c, d, id)
  {
    hide SameText, FieldAtIndex, Show, Flat;
    var xs, ys := FieldFaults(a, d, id), FieldFaults(c, d, id);
    forall i | 0 <= i < 7
      ensures xs[i] == ys[i]
    {
      SameTexts(a, c, d, i);
    }
    assert xs == ys;
  }

  lemma {:induction false} SameClaimFaults(bs: seq<Value>, cs: seq<Value>, ds: seq<Value>, ids: seq<Value>)
    requires ShowAll(bs) == ShowAll(cs) && |bs| == |cs|
    ensures ClaimFaults(bs, ds, ids) == ClaimFaults(cs, ds, ids)
  {
    forall i | 0 <= i < |ids|
      ensures ClaimFault(bs, ds, ids[i]) == ClaimFault(cs, ds, ids[i])
    {
      SameStated(bs, cs, |bs|, ids[i]);
      if Stated(bs, ids[i]).Some? && Stated(ds, ids[i]).Some? {
        SameDiffering(Stated(bs, ids[i]).value, Stated(cs, ids[i]).value, Stated(ds, ids[i]).value, ids[i]);
      }
    }
  }

  lemma {:induction false} SameAbsent(bs: seq<Value>, cs: seq<Value>, ids: seq<Value>)
    requires ShowAll(bs) == ShowAll(cs) && |bs| == |cs|
    ensures AbsentFaults(bs, ids) == AbsentFaults(cs, ids)
  {
    forall i | 0 <= i < |ids|
      ensures Stated(bs, ids[i]).None? <==> Stated(cs, ids[i]).None?
    {
      SameStated(bs, cs, |bs|, ids[i]);
    }
  }

  lemma {:induction false} SameDifferences(bs: seq<Value>, cs: seq<Value>, ds: seq<Value>)
    requires ShowAll(bs) == ShowAll(cs)
    ensures Differences(bs, ds) == Differences(cs, ds)
  {
    assert |bs| == |ShowAll(bs)| == |ShowAll(cs)| == |cs|;
    SameIds(bs, cs, |bs|);
    SameAbsent(bs, cs, IdsOf(ds, |ds|));
    SameClaimFaults(bs, cs, ds, IdsOf(ds, |ds|));
  }

  // Normal forms

  lemma {:induction false} EncodeNorm(v: Value)
    requires Encodable(v) && Proper(v)
    ensures Encode(Norm(v)) == Encode(v)
  {
    ParseEncode(v);
  }

  lemma {:induction false} FieldTextNorm(c: Value, k: Text)
    requires Plainly(c)
    ensures FieldText(Norm(Slot(c)), k) == FieldText(c, k)
  {
    if c != Undefined {
      FieldNorm(c, k);
      FieldReadable(c, k);
      ScalarReads(Field(c, k));
      if !Nullish(Field(c, k)) {
        EncodeNorm(Field(c, k));
      }
    }
  }

  lemma {:induction false} IdNorm(c: Value)
    requires Plainly(c)
    ensures IdOf(Norm(Slot(c))) == IdOf(c)
  {
    if c != Undefined {
      FieldNorm(c, K_ID);
      FieldReadable(c, K_ID);
      if Field(c, K_ID) != Undefined {
        ParseEncode(Field(c, K_ID));
      }
    }
  }

  lemma {:induction false} ShowNorm(c: Value)
    requires Plainly(c)
    ensures Show(Norm(Slot(c))) == Show(c)
  {
    IdNorm(c);
    FieldTextNorm(c, K_STATEMENT);
    FieldTextNorm(c, K_OP);
    FieldTextNorm(c, K_UNIT);
    FieldTextNorm(c, K_PASSED);
    FieldTextNorm(c, K_ACTUAL);
    FieldTextNorm(c, K_THRESHOLD);
    FieldTextNorm(c, K_SOURCES);
    hide FieldText, IdOf, Norm;
  }

  /** `b` lists what `a` lists, each entry in normal form. */
  ghost predicate NormList(a: seq<Value>, b: seq<Value>) {
    |a| == |b| && forall i :: 0 <= i < |a| ==> Plainly(a[i]) && b[i] == Norm(Slot(a[i]))
  }

  lemma {:induction false} ListNorm(v: Value, k: Text)
    requires Plainly(v)
    ensures NormList(Items(Field(v, k)), Items(Field(Norm(v), k)))
  {
    FieldNorm(v, k);
    FieldReadable(v, k);
    ItemsNorm(Field(v, k));
  }

  lemma {:induction false} ShowAllNorm(a: seq<Value>, b: seq<Value>)
    requires NormList(a, b)
    ensures ShowAll(b) == ShowAll(a)
  {
    forall i | 0 <= i < |a|
      ensures Show(b[i]) == Show(a[i])
    {
      ShowNorm(a[i]);
    }
  }

  lemma {:induction false} DigestNorm(sha: Bytes -> Text, v: Value)
    requires Readable(v)
    ensures Digest(sha, Norm(v)) == Digest(sha, v)
  {
    if v != Undefined {
      EncodeNorm(v);
    }
  }

  lemma {:induction false} NormTwice(v: Value)
    requires Readable(v)
    ensures Norm(Norm(v)) == Norm(v)
  {
    if v != Undefined {
      ParseEncode(v);
    }
  }

  lemma {:induction false} ObjectFaultNorm(b: Build, s: Value)
    requires Plainly(s)
    ensures SourceFault(b, Norm(s)) == SourceFault(b, s)
  {
    FieldRead(b.env, s, K_BODY);
    FieldRead(b.env, s, K_UNAVAILABLE);
    FieldRead(b.env, s, K_DIGEST);
    FieldRead(b.env, s, K_INDEX);
    hide Field, Norm, Digest, TextOf, Encodable, Proper;
    DigestNorm(b.sha, Field(s, K_BODY));
    NormTwice(Field(s, K_INDEX));
  }

  lemma {:induction false} SourceFaultNorm(b: Build, s: Value)
    requires Plainly(s)
    ensures SourceFault(b, Norm(Slot(s))) == SourceFault(b, s)
  {
    if s != Undefined {
      ObjectFaultNorm(b, s);
    }
  }

  lemma {:induction false} SourceFaultsNorm(b: Build, a: seq<Value>, n: seq<Value>)
    requires NormList(a, n)
    ensures SourceFaults(b, n) == SourceFaults(b, a)
  {
    forall i | 0 <= i < |a|
      ensures SourceFault(b, n[i]) == SourceFault(b, a[i])
    {
      SourceFaultNorm(b, a[i]);
    }
  }

  lemma {:induction false} ReadSlotNorm(env: Env, v: Value)
    requires Plainly(v)
    ensures ReadSource(env, Norm(Slot(v))) == ReadSource(env, v)
  {
    if v != Undefined {
      ReadSourceNorm(env, v);
    }
  }

  lemma {:induction false} ReadSourcesNorm(env: Env, a: seq<Value>, n: seq<Value>)
    requires NormList(a, n)
    ensures ReadSources(env, n) == ReadSources(env, a)
  {
    forall i | 0 <= i < |a|
      ensures ReadSource(env, n[i]) == ReadSource(env, a[i])
    {
      ReadSlotNorm(env, a[i]);
    }
  }

  lemma {:induction false} VerdictNorm(b: Build, bundle: Value, ds: seq<Value>)
    requires Plainly(bundle)
    ensures VerdictWith(b, Norm(bundle), ds) == VerdictWith(b, bundle, ds)
  {
    ListNorm(bundle, K_SOURCES);
    ListNorm(bundle, K_CLAIMS);
    var ss, ns := Items(Field(bundle, K_SOURCES)), Items(Field(Norm(bundle), K_SOURCES));
    var cs, ms := Items(Field(bundle, K_CLAIMS)), Items(Field(Norm(bundle), K_CLAIMS));
    SourceFaultsNorm(b, ss, ns);
    ShowAllNorm(cs, ms);
    HeaderNorm(b, bundle);
    SameDifferences(ms, cs, ds);
  }

  lemma {:induction false} HeaderNorm(b: Build, bundle: Value)
    requires Plainly(bundle)
    ensures SchemaFault(Norm(bundle)) == SchemaFault(bundle)
    ensures TextOf(Field(Norm(bundle), K_DERIVATION)) == TextOf(Field(bundle, K_DERIVATION))
  {
    FieldRead(b.env, bundle, K_SCHEMA);
    FieldRead(b.env, bundle, K_DERIVATION);
  }

  /** The claims the check derives from a bundle, whatever its window. */
  function Derived(b: Build, bundle: Value): seq<Value> {
    var w := Field(bundle, K_WINDOW);
    match (b.env.parseDate(TextOf(Field(w, K_FROM))), b.env.parseDate(TextOf(Field(w, K_TO))))
    case (Some(from), Some(to)) => Recomputed(b, Window(from, to), bundle)
    case (from, to) => b.undated(from, to, ReadSources(b.env, Items(Field(bundle, K_SOURCES))))
  }

  /** The check, with the window the bundle states. */
  function Recheck(b: Build, bundle: Value): Verdict { VerdictWith(b, bundle, Derived(b, bundle)) }

  lemma {:induction false} RecheckDated(b: Build, w: Window, bundle: Value)
    requires ReadWindow(b.env, bundle) == Some(w)
    ensures Recheck(b, bundle) == VerdictOf(b, w, bundle)
  {
    hide VerdictWith, Recomputed;
  }

  lemma {:induction false} DerivedNorm(b: Build, bundle: Value)
    requires Plainly(bundle)
    ensures Derived(b, Norm(bundle)) == Derived(b, bundle)
  {
    hide MetricsOf, ClaimsOf, ClaimValues;
    ListNorm(bundle, K_SOURCES);
    ReadSourcesNorm(b.env, Items(Field(bundle, K_SOURCES)), Items(Field(Norm(bundle), K_SOURCES)));
    FieldRead(b.env, bundle, K_WINDOW);
    FieldRead(b.env, Field(bundle, K_WINDOW), K_FROM);
    FieldRead(b.env, Field(bundle, K_WINDOW), K_TO);
  }

  /** Sealing a bundle and opening it again changes nothing the checker can see: the same verdict,
      mismatch for mismatch, and the same recomputed claims. */
  lemma {:induction false} SealingKeepsTheVerdict(b: Build, lossy: Bytes -> Text, input: Envelope.Input)
    requires Encodable(input.payload) && Proper(input.payload) && NoBigInts(input.payload) && input.referenceId != []
    ensures Envelope.EncodeEnvelope(b.sha, input).Some?
    ensures var unsealed := Envelope.DecodeBytes(b.sha, lossy, Envelope.EncodeEnvelope(b.sha, input).value);
      && unsealed.Ok?
      && Recheck(b, Field(unsealed.envelope, Envelope.K_PAYLOAD)) == Recheck(b, input.payload)
  {
    Envelope.SealRoundTrip(b.sha, lossy, input);
    hide VerdictWith, Derived;
    DerivedNorm(b, input.payload);
    VerdictNorm(b, input.payload, Derived(b, input.payload));
  }
}
