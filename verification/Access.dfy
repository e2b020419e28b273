/** Reading JavaScript objects by property, and why a read cannot tell a value from its normal
    form: every field commutes with `Norm`, so whatever is computed from fields does too. */
module Access {
  import opened Utf
  import opened Numbers
  import opened Json
  import opened Canonical

  /** `v[k]`, undefined when `v` is not an object or has no such member. */
  function Field(v: Value, k: Text): (r: Value)
    ensures r == Undefined || r < v
  {
    match v
    case Obj(ms) => LookupBelow(ms, k); var r := Lookup(ms, k); if r.Some? then r.value else Undefined
    case _ => Undefined
  }

  /** The elements of an array, none for anything else. */
  function Items(v: Value): seq<Value> {
    if v.Arr? then v.items else []
  }

  function TextOf(v: Value): Text {
    if v.Str? then v.s else []
  }

  function NumberOf(v: Value): Number {
    if v.Num? then Unsigned(v.x) else Zero(false)
  }

  /** JavaScript truthiness of the values JSON can hold. */
  predicate Truthy(v: Value) {
    match v
    case Undefined | Null | NonFinite => false
    case Bool(b) => b
    case Num(x) => x.Finite?
    case Str(s) => s != []
    case BigInt(n) => n != 0
    case _ => true
  }

  predicate Nullish(v: Value) { v == Undefined || v == Null }

  /** A value whose fields and elements may be read: encodable, or absent. */
  ghost predicate Readable(v: Value) {
    v == Undefined || (Encodable(v) && Proper(v))
  }

  /** Readable, and free of bigints, so that no value changes its type in the normal form. */
  ghost predicate NoBigInts(v: Value) {
    match v
    case BigInt(_) => false
    case Arr(items) => forall i :: 0 <= i < |items| ==> NoBigInts(items[i])
    case Obj(ms) => forall i :: 0 <= i < |ms| ==> NoBigInts(ms[i].value)
    case _ => true
  }

  lemma {:induction false} FieldReadable(v: Value, k: Text)
    requires Readable(v)
    ensures Readable(Field(v, k)) && (NoBigInts(v) ==> NoBigInts(Field(v, k)))
  {
    if v.Obj? && Lookup(v.members, k).Some? {
      var i :| 0 <= i < |v.members| && v.members[i] == Member(k, Field(v, k));
    }
  }

  /** Reading a field of the normal form gives the normal form of the field. */
  lemma {:induction false} FieldNorm(v: Value, k: Text)
    requires Readable(v)
    ensures Field(Norm(v), k) == Norm(Field(v, k))
  {
    if v.Obj? {
      NormCanonical(v);
      LookupNorm(v, k);
      var ns := Norm(v).members;
      IncreasingDistinct(ns);
      if Lookup(v.members, k).Some? {
        var i :| 0 <= i < |ns| && ns[i].key == k;
        FieldReadable(v, k);
        assert Norm(Lookup(v.members, k).value) != Undefined;
        LookupMember(ns, ns[i]);
      }
    }
  }

  /** An object literal holds what it was given. */
  lemma {:induction false} FieldAt(ms: seq<Member>, i: nat)
    requires DistinctKeys(ms) && i < |ms|
    ensures Field(Obj(ms), ms[i].key) == ms[i].value
  {
    if ms[i].value != Undefined {
      LookupMember(ms, ms[i]);
    }
  }

  lemma {:induction false} ItemsNorm(v: Value)
    ensures |Items(Norm(v))| == |Items(v)|
    ensures forall i :: 0 <= i < |Items(v)| ==> Items(Norm(v))[i] == Norm(Slot(Items(v)[i]))
    ensures Readable(v) ==> forall i :: 0 <= i < |Items(v)| ==> Readable(Items(v)[i])
    ensures NoBigInts(v) ==> forall i :: 0 <= i < |Items(v)| ==> NoBigInts(Items(v)[i])
  {
    if v.Arr? {
      forall i | 0 <= i < |v.items|
        ensures Items(Norm(v))[i] == Norm(Slot(v.items[i]))
      {
      }
    }
  }

  /** Scalars read the same from a value and from its normal form. */
  lemma {:induction false} ScalarReads(v: Value)
    requires NoBigInts(v)
    ensures TextOf(Norm(v)) == TextOf(v) && NumberOf(Norm(v)) == NumberOf(v)
    ensures Truthy(Norm(v)) == Truthy(v) && Nullish(Norm(v)) == Nullish(v)
    ensures (Norm(v) == Undefined) == (v == Undefined) && (Norm(v) == Null) == (v == Null)
    ensures Norm(v).Str? == v.Str? && Norm(v).Num? == v.Num? && Norm(v).Bool? == v.Bool?
  {
    if v.Arr? || v.Obj? {
      hide NoBigInts;
    } else {
      ScalarNorm(v);
      hide Norm, NoBigInts;
    }
  }

  /** A scalar is its own normal form, but for what JSON cannot hold and the sign of zero. */
  lemma {:induction false} ScalarNorm(v: Value)
    requires NoBigInts(v) && !v.Arr? && !v.Obj?
    ensures Norm(v) == v || (v.NonFinite? && Norm(v) == Null) || (v.Num? && Norm(v) == Num(Unsigned(v.x)))
    ensures !v.BigInt? && (v.Undefined? ==> Norm(v) == v)
  {
  }

  /** What counts as false: nothing, false, zero and the empty text. */
  lemma {:induction false} FalseExactly(v: Value)
    requires JsonValue(v)
    ensures !Truthy(v) <==> v in {Null, Bool(false), Num(Zero(false)), Num(Zero(true)), Str([])}
  {
  }

  lemma {:induction false} JsonReadable(v: Value)
    requires JsonValue(v)
    ensures Encodable(v) && Proper(v) && NoBigInts(v)
    decreases v
  {
    match v
    case Arr(items) =>
      forall i | 0 <= i < |items|
        ensures Encodable(items[i]) && Proper(items[i]) && NoBigInts(items[i])
      {
        JsonReadable(items[i]);
      }
    case Obj(ms) =>
      forall i | 0 <= i < |ms|
        ensures Encodable(ms[i].value) && Proper(ms[i].value) && NoBigInts(ms[i].value)
      {
        JsonReadable(ms[i].value);
      }
    case _ =>
  }
}
