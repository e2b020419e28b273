/** The sealed object that goes on Swarm (packages/seal/src/envelope.ts). */
module Envelope {
  import opened Utf
  import opened Numbers
  import opened Json
  import opened Canonical
  import opened Access

  const SCHEMA := Ascii("zegel.seal.v1")

  const ONE: Number := Finite(false, [49], 1)
  const TWO: Number := Finite(false, [50], 1)

  datatype Tier = Tier1 | Tier2

  /** `sealedAt` carries the default the source takes from the clock. */
  datatype Input = Input(tier: Tier, referenceId: Text, payload: Value, sealedAt: Text)

  datatype Error =
    | NotJson | NotObject | BadSchema | BadTier | NoReferenceId | NoDigest | NoSealedAt | NoPayload | DigestMismatch

  datatype Decoded = Ok(envelope: Value) | Err(error: Error)

  const K_SCHEMA := Ascii("schema")
  const K_TIER := Ascii("tier")
  const K_REFERENCE := Ascii("referenceId")
  const K_DIGEST := Ascii("digest")
  const K_SEALED := Ascii("sealedAt")
  const K_PAYLOAD := Ascii("payload")

  function EnvelopeValue(input: Input, digest: Text): Value {
    Obj([
      Member(K_SCHEMA, Str(SCHEMA)),
      Member(K_TIER, Num(if input.tier.Tier1? then ONE else TWO)),
      Member(K_REFERENCE, Str(input.referenceId)),
      Member(K_DIGEST, Str(digest)),
      Member(K_SEALED, Str(input.sealedAt)),
      Member(K_PAYLOAD, input.payload)
    ])
  }

  /** `makeEnvelope`; `None` when the payload cannot be canonicalised. */
  function MakeEnvelope(sha: Bytes -> Text, input: Input): Option<Value> {
    match Digest(sha, input.payload)
    case None => None
    case Some(d) => Some(EnvelopeValue(input, d))
  }

  /** `encodeEnvelopeObject`. */
  function EncodeEnvelopeObject(envelope: Value): Option<Bytes> {
    match Encode(envelope)
    case None => None
    case Some(t) => Some(Utf8Encode(t))
  }

  /** `encodeEnvelope`. */
  function EncodeEnvelope(sha: Bytes -> Text, input: Input): Option<Bytes> {
    match MakeEnvelope(sha, input)
    case None => None
    case Some(e) => EncodeEnvelopeObject(e)
  }

  /** The checks of `decodeEnvelope` on a parsed object, in order. */
  function CheckEnvelope(sha: Bytes -> Text, v: Value): Decoded {
    if !v.Obj? then Err(NotObject)
    else if Field(v, K_SCHEMA) != Str(SCHEMA) then Err(BadSchema)
    else if Field(v, K_TIER) != Num(ONE) && Field(v, K_TIER) != Num(TWO) then Err(BadTier)
    else if !Field(v, K_REFERENCE).Str? || Field(v, K_REFERENCE).s == [] then Err(NoReferenceId)
    else if !Field(v, K_DIGEST).Str? then Err(NoDigest)
    else if !Field(v, K_SEALED).Str? then Err(NoSealedAt)
    else if Field(v, K_PAYLOAD) == Undefined then Err(NoPayload)
    else if Digest(sha, Field(v, K_PAYLOAD)) != Some(Field(v, K_DIGEST).s) then Err(DigestMismatch)
    else Ok(v)
  }

  /** `decodeEnvelope` on text. */
  function DecodeText(sha: Bytes -> Text, t: Text): Decoded {
    match Parse(t)
    case None => Err(NotJson)
    case Some(v) => CheckEnvelope(sha, v)
  }

  /** `decodeEnvelope` on bytes; `lossy` is the runtime's decoding of malformed UTF-8. */
  function DecodeBytes(sha: Bytes -> Text, lossy: Bytes -> Text, b: Bytes): Decoded {
    DecodeText(sha, Utf8Decode(b, lossy))
  }

  lemma {:induction false} FieldsOfEnvelope(input: Input, digest: Text)
    ensures var e := EnvelopeValue(input, digest);
      && DistinctKeys(e.members)
      && Field(e, K_SCHEMA) == Str(SCHEMA)
      && Field(e, K_TIER) == Num(if input.tier.Tier1? then ONE else TWO)
      && Field(e, K_REFERENCE) == Str(input.referenceId)
      && Field(e, K_DIGEST) == Str(digest)
      && Field(e, K_SEALED) == Str(input.sealedAt)
      && Field(e, K_PAYLOAD) == input.payload
  {
    var ms := EnvelopeValue(input, digest).members;
    NamesDiffer();
    assert DistinctKeys(ms);
    FieldAt(ms, 0);
    FieldAt(ms, 1);
    FieldAt(ms, 2);
    FieldAt(ms, 3);
    FieldAt(ms, 4);
    FieldAt(ms, 5);
  }

  lemma {:induction false} NamesDiffer()
    ensures K_SCHEMA != K_DIGEST
    ensures |K_SCHEMA| == |K_DIGEST| == 6 && |K_TIER| == 4 && |K_REFERENCE| == 11 && |K_SEALED| == 8 && |K_PAYLOAD| == 7
  {
    assert K_SCHEMA[0] != K_DIGEST[0];
  }

  lemma {:induction false} FieldsOfNormalForm(input: Input, digest: Text)
    requires Encodable(input.payload) && Proper(input.payload)
    ensures var e := Norm(EnvelopeValue(input, digest));
      && e.Obj?
      && Field(e, K_SCHEMA) == Str(SCHEMA)
      && Field(e, K_TIER) == Num(if input.tier.Tier1? then ONE else TWO)
      && Field(e, K_REFERENCE) == Str(input.referenceId)
      && Field(e, K_DIGEST) == Str(digest)
      && Field(e, K_SEALED) == Str(input.sealedAt)
      && Field(e, K_PAYLOAD) == Norm(input.payload)
  {
    var e := EnvelopeValue(input, digest);
    FieldsOfEnvelope(input, digest);
    EnvelopeEncodable(input, digest);
    hide EnvelopeValue, Field, Encodable, Proper;
    FieldNorm(e, K_SCHEMA);
    FieldNorm(e, K_TIER);
    FieldNorm(e, K_REFERENCE);
    FieldNorm(e, K_DIGEST);
    FieldNorm(e, K_SEALED);
    FieldNorm(e, K_PAYLOAD);
    assert e.Obj?;
  }

  lemma {:induction false} NormalFormChecks(sha: Bytes -> Text, input: Input, digest: Text)
    requires Encodable(input.payload) && Proper(input.payload) && input.referenceId != []
    requires Digest(sha, input.payload) == Some(digest)
    ensures CheckEnvelope(sha, Norm(EnvelopeValue(input, digest))) == Ok(Norm(EnvelopeValue(input, digest)))
  {
    FieldsOfNormalForm(input, digest);
    ParseEncode(input.payload);
    hide EnvelopeValue, Field, Norm, Encode, Encodable, Proper;
  }

  /** Sealing round-trips: any encodable payload of either tier under a non-empty reference id
      decodes, as bytes or as text, to the normal form of the envelope, payload included. */
  lemma {:induction false} SealRoundTrip(sha: Bytes -> Text, lossy: Bytes -> Text, input: Input)
    requires Encodable(input.payload) && Proper(input.payload) && input.referenceId != []
    ensures MakeEnvelope(sha, input).Some?
    ensures var e := MakeEnvelope(sha, input).value;
      && EncodeEnvelope(sha, input) == EncodeEnvelopeObject(e) && EncodeEnvelopeObject(e).Some?
      && DecodeBytes(sha, lossy, EncodeEnvelopeObject(e).value) == Ok(Norm(e))
      && DecodeText(sha, Encode(e).value) == Ok(Norm(e))
      && Field(Norm(e), K_PAYLOAD) == Norm(input.payload)
      && Digest(sha, Norm(input.payload)) == Digest(sha, input.payload)
  {
    ParseEncode(input.payload);
    var d := Digest(sha, input.payload).value;
    var e := EnvelopeValue(input, d);
    NormalFormChecks(sha, input, d);
    FieldsOfNormalForm(input, d);
    EnvelopeEncodable(input, d);
    ParseEncode(e);
    EncodeWellFormed(e);
    assert Encode(e).value[0] == LBRACE;
    Utf8RoundTrip(Encode(e).value, lossy);
    hide EnvelopeValue, Field, Norm, CheckEnvelope, Encode, Parse, Utf8Encode, Utf8Decode, Encodable, Proper;
  }

  lemma {:induction false} EnvelopeEncodable(input: Input, digest: Text)
    requires Encodable(input.payload) && Proper(input.payload)
    ensures Encodable(EnvelopeValue(input, digest)) && Proper(EnvelopeValue(input, digest))
  {
    FieldsOfEnvelope(input, digest);
    hide DistinctKeys, Field, Ascii;
  }

  /** A payload that cannot be canonicalised is never sealed. */
  lemma {:induction false} SealRefuses(sha: Bytes -> Text, input: Input)
    ensures MakeEnvelope(sha, input).Some? <==> Encodable(input.payload)
  {
    EncodePrintsNorm(input.payload);
  }

  /** What an unsealed object promises: if it opens and carries the digest of `payload`, it holds
      that payload up to equivalence, unless two texts collide under the hash. */
  lemma {:induction false} UnsealBinds(sha: Bytes -> Text, t: Text, payload: Value)
    requires Encodable(payload) && Proper(payload)
    requires DecodeText(sha, t).Ok?
    requires Digest(sha, payload) == Some(TextOf(Field(DecodeText(sha, t).envelope, K_DIGEST)))
    ensures var held := Field(DecodeText(sha, t).envelope, K_PAYLOAD);
      && Encode(payload).Some? && Encode(held).Some?
      && (Equivalent(payload, held)
          || Collision(sha, Utf8Encode(Encode(payload).value), Utf8Encode(Encode(held).value)))
  {
    var v := Parse(t).value;
    ParseJson(t);
    JsonReadable(v);
    FieldReadable(v, K_PAYLOAD);
    DigestBinds(sha, payload, Field(v, K_PAYLOAD));
  }

  predicate Headed(input: Input, e: Value) {
    && Field(e, Ascii("schema")) == Str(Ascii("zegel.seal.v1"))
    && Field(e, Ascii("tier")) == Num(Finite(false, if input.tier == Tier1 then [49] else [50], 1))
    && Field(e, Ascii("referenceId")) == Str(input.referenceId)
  }

  predicate Carries(input: Input, digest: Text, e: Value) {
    && Field(e, Ascii("sealedAt")) == Str(input.sealedAt) && Field(e, Ascii("payload")) == input.payload
    && Field(e, Ascii("digest")) == Str(digest)
  }

  /** What a sealed object states. */
  lemma {:induction false} SealStates(sha: Bytes -> Text, input: Input)
    requires MakeEnvelope(sha, input).Some?
    ensures Digest(sha, input.payload).Some?
    ensures var e := MakeEnvelope(sha, input).value;
      Headed(input, e) && Carries(input, Digest(sha, input.payload).value, e)
  {
    FieldsOfEnvelope(input, Digest(sha, input.payload).value);
    hide Field, EnvelopeValue, Digest;
  }

  /** What is wrong with an object, by the error it is refused with. */
  predicate Fails(sha: Bytes -> Text, v: Value, e: Error) {
    match e
    case NotJson => false
    case NotObject => !v.Obj?
    case BadSchema => Field(v, Ascii("schema")) != Str(Ascii("zegel.seal.v1"))
    case BadTier => Field(v, Ascii("tier")) !in {Num(Finite(false, [49], 1)), Num(Finite(false, [50], 1))}
    case NoReferenceId => !Field(v, Ascii("referenceId")).Str? || Field(v, Ascii("referenceId")).s == []
    case NoDigest => !Field(v, Ascii("digest")).Str?
    case NoSealedAt => !Field(v, Ascii("sealedAt")).Str?
    case NoPayload => Field(v, Ascii("payload")) == Undefined
    case DigestMismatch => Digest(sha, Field(v, Ascii("payload"))) != Some(TextOf(Field(v, Ascii("digest"))))
  }

  /** An object opens exactly when nothing is wrong with it: its schema, a tier of 1 or 2, a reference id
      that is not empty, a date, and a payload that is what the digest says. Otherwise the error names
      something that is wrong. */
  lemma {:induction false} OpensExactly(sha: Bytes -> Text, v: Value)
    ensures CheckEnvelope(sha, v) == Ok(v) <==> forall e :: !Fails(sha, v, e)
    ensures forall e :: CheckEnvelope(sha, v) == Err(e) ==> Fails(sha, v, e)
    ensures CheckEnvelope(sha, v).Ok? ==> CheckEnvelope(sha, v).envelope == v
  {
    hide Field, Digest;
    if !CheckEnvelope(sha, v).Ok? {
      assert Fails(sha, v, CheckEnvelope(sha, v).error);
    }
  }

  /** Text that does not parse is refused as such, and only that. */
  lemma {:induction false} NotJsonExactly(sha: Bytes -> Text, t: Text)
    ensures DecodeText(sha, t) == Err(NotJson) <==> Parse(t) == None
  {
    hide Parse, Field, Digest;
  }
}
