/** ECMAScript strings and the UTF-8 codec of `TextEncoder` / `TextDecoder`.

    A string is a list of UTF-16 code units, so it may hold lone surrogates. `TextEncoder`
    replaces those by U+FFFD; the lemmas say when that loses nothing, and that UTF-8
    (RFC 3629) is a bijection between scalar lists and the byte strings `DecodeScalars` accepts. */
module Utf {
  type Unit = u: int | 0 <= u < 0x1_0000
  type Byte = b: int | 0 <= b < 0x100
  type Text = seq<Unit>
  type Bytes = seq<Byte>
  type Scalar = c: int | 0 <= c < 0xD800 || 0xE000 <= c < 0x11_0000

  datatype Option<+T> = None | Some(value: T)

  /** The code units of an ASCII literal. */
  function Ascii(s: string): (t: Text)
    requires forall i :: 0 <= i < |s| ==> s[i] as int < 128
    ensures |t| == |s| && forall i :: 0 <= i < |s| ==> t[i] == s[i] as int
  {
    seq<Unit>(|s|, i requires 0 <= i < |s| => s[i] as Unit)
  }

  predicate High(u: Unit) { 0xD800 <= u < 0xDC00 }
  predicate Low(u: Unit) { 0xDC00 <= u < 0xE000 }
  predicate Surrogate(u: Unit) { 0xD800 <= u < 0xE000 }

  /** White space as `\s` matches it and `trim` removes it. */
  predicate White(u: Unit) {
    u in {9, 10, 11, 12, 13, 32, 0xA0, 0x1680, 0x2028, 0x2029, 0x202F, 0x205F, 0x3000, 0xFEFF} || 0x2000 <= u <= 0x200A
  }

  const REPLACEMENT: Scalar := 0xFFFD
  const BOM: Scalar := 0xFEFF

  /** True when a surrogate pair starts the text. */
  predicate StartsPair(t: Text) { |t| >= 2 && High(t[0]) && Low(t[1]) }

  /** No lone surrogates: the text is a sequence of Unicode scalar values. */
  predicate WellFormed(t: Text) {
    if t == [] then true
    else if StartsPair(t) then WellFormed(t[2..])
    else !Surrogate(t[0]) && WellFormed(t[1..])
  }

  lemma {:induction false} WellFormedConcat(a: Text, b: Text)
    requires WellFormed(a) && WellFormed(b)
    ensures WellFormed(a + b)
    decreases |a|
  {
    if a == [] {
      assert a + b == b;
    } else if StartsPair(a) {
      assert (a + b)[2..] == a[2..] + b;
      WellFormedConcat(a[2..], b);
    } else {
      assert (a + b)[1..] == a[1..] + b;
      WellFormedConcat(a[1..], b);
    }
  }

  /** Text without surrogates is well formed. */
  lemma {:induction false} PlainWellFormed(t: Text)
    requires forall u :: u in t ==> !Surrogate(u)
    ensures WellFormed(t)
  {
    if t != [] {
      assert t[0] in t;
      PlainWellFormed(t[1..]);
    }
  }

  function PairScalar(hi: Unit, lo: Unit): (c: Scalar)
    requires High(hi) && Low(lo)
    ensures 0x1_0000 <= c
  {
    0x1_0000 + (hi - 0xD800) * 0x400 + (lo - 0xDC00)
  }

  /** The scalar values `TextEncoder` sees: a lone surrogate becomes U+FFFD. */
  function Scalars(t: Text): seq<Scalar> {
    if t == [] then []
    else if StartsPair(t) then [PairScalar(t[0], t[1])] + Scalars(t[2..])
    else [if Surrogate(t[0]) then REPLACEMENT else t[0]] + Scalars(t[1..])
  }

  function ScalarUnits(c: Scalar): (t: Text) {
    if c < 0x1_0000 then [c]
    else [0xD800 + (c - 0x1_0000) / 0x400, 0xDC00 + (c - 0x1_0000) % 0x400]
  }

  function FromScalars(s: seq<Scalar>): Text {
    if s == [] then [] else ScalarUnits(s[0]) + FromScalars(s[1..])
  }

  lemma {:induction false} PairUnits(hi: Unit, lo: Unit)
    requires High(hi) && Low(lo)
    ensures ScalarUnits(PairScalar(hi, lo)) == [hi, lo]
  {
    var c := PairScalar(hi, lo) - 0x1_0000;
    assert c == (hi - 0xD800) * 0x400 + (lo - 0xDC00);
    assert c / 0x400 == hi - 0xD800 && c % 0x400 == lo - 0xDC00;
  }

  /** Converting to scalar values and back is the identity exactly on well-formed text. */
  lemma {:induction false} ScalarsLossless(t: Text)
    ensures FromScalars(Scalars(t)) == t <==> WellFormed(t)
    decreases |t|
  {
    if t == [] {
    } else if StartsPair(t) {
      PairUnits(t[0], t[1]);
      ScalarsLossless(t[2..]);
      assert t == [t[0], t[1]] + t[2..];
      var s := Scalars(t);
      assert s[1..] == Scalars(t[2..]);
      assert FromScalars(s) == [t[0], t[1]] + FromScalars(Scalars(t[2..]));
      assert FromScalars(s) == t ==> FromScalars(s)[2..] == t[2..];
    } else {
      ScalarsLossless(t[1..]);
      assert t == [t[0]] + t[1..];
      var s := Scalars(t);
      assert s[1..] == Scalars(t[1..]);
      assert FromScalars(s) == ScalarUnits(s[0]) + FromScalars(Scalars(t[1..]));
      assert FromScalars(s)[0] == s[0];
      assert FromScalars(s) == t ==> FromScalars(s)[1..] == t[1..];
    }
  }

  lemma {:induction false} FromScalarsWellFormed(s: seq<Scalar>)
    ensures WellFormed(FromScalars(s)) && Scalars(FromScalars(s)) == s
  {
    if s != [] {
      FromScalarsWellFormed(s[1..]);
      var t, rest := FromScalars(s), FromScalars(s[1..]);
      assert s == [s[0]] + s[1..];
      if s[0] < 0x1_0000 {
        assert t[1..] == rest;
      } else {
        assert StartsPair(t) && t[2..] == rest;
      }
    }
  }

  // UTF-8

  function EncodeScalar(c: Scalar): (b: Bytes)
    ensures 1 <= |b| <= 4
  {
    if c < 0x80 then [c]
    else if c < 0x800 then [0xC0 + c / 0x40, 0x80 + c % 0x40]
    else if c < 0x1_0000 then [0xE0 + c / 0x1000, 0x80 + c / 0x40 % 0x40, 0x80 + c % 0x40]
    else [0xF0 + c / 0x4_0000, 0x80 + c / 0x1000 % 0x40, 0x80 + c / 0x40 % 0x40, 0x80 + c % 0x40]
  }

  function EncodeScalars(s: seq<Scalar>): Bytes {
    if s == [] then [] else EncodeScalar(s[0]) + EncodeScalars(s[1..])
  }

  predicate Continuation(b: Byte) { 0x80 <= b < 0xC0 }

  /** The scalar a UTF-8 byte string starts with, and how many bytes it takes; shortest form
      only, no surrogates, nothing above U+10FFFF. */
  function DecodeScalar(b: Bytes): (r: Option<(Scalar, nat)>)
    requires b != []
    ensures r.Some? ==> 1 <= r.value.1 <= |b|
  {
    if b[0] < 0x80 then Some((b[0], 1))
    else if 0xC2 <= b[0] < 0xE0 then
      if |b| >= 2 && Continuation(b[1]) then Some(((b[0] as int - 0xC0) * 0x40 + (b[1] as int - 0x80), 2)) else None
    else if 0xE0 <= b[0] < 0xF0 then
      if |b| >= 3 && Continuation(b[1]) && Continuation(b[2]) then
        var c := (b[0] as int - 0xE0) * 0x1000 + (b[1] as int - 0x80) * 0x40 + (b[2] as int - 0x80);
        if 0x800 <= c && !(0xD800 <= c < 0xE000) then Some((c, 3)) else None
      else None
    else if 0xF0 <= b[0] < 0xF5 then
      if |b| >= 4 && Continuation(b[1]) && Continuation(b[2]) && Continuation(b[3]) then
        var c := (b[0] as int - 0xF0) * 0x4_0000 + (b[1] as int - 0x80) * 0x1000
          + (b[2] as int - 0x80) * 0x40 + (b[3] as int - 0x80);
        if 0x1_0000 <= c < 0x11_0000 then Some((c, 4)) else None
      else None
    else None
  }

  /** `new TextDecoder('utf-8', { fatal: true, ignoreBOM: true })`. */
  function DecodeScalars(b: Bytes): Option<seq<Scalar>> {
    if b == [] then Some([])
    else match DecodeScalar(b)
      case None => None
      case Some((c, n)) =>
        match DecodeScalars(b[n..])
        case None => None
        case Some(rest) => Some([c] + rest)
  }

  lemma {:induction false} SixBits(c: nat)
    ensures c == c / 0x40 * 0x40 + c % 0x40 && c % 0x40 < 0x40
    ensures c / 0x40 == c / 0x1000 * 0x40 + c / 0x40 % 0x40 && c / 0x40 % 0x40 < 0x40
    ensures c / 0x1000 == c / 0x4_0000 * 0x40 + c / 0x1000 % 0x40 && c / 0x1000 % 0x40 < 0x40
  {
  }

  lemma {:induction false} DecodeEncodedScalar(c: Scalar, rest: Bytes)
    ensures DecodeScalar(EncodeScalar(c) + rest) == Some((c, |EncodeScalar(c)|))
  {
    SixBits(c);
    hide DecodeScalar, EncodeScalar;
    if c < 0x80 {
      DecodeOne(c, rest);
    } else if c < 0x800 {
      DecodeTwo(c, c / 0x40, c % 0x40, rest);
    } else if c < 0x1_0000 {
      DecodeThree(c, c / 0x1000, c / 0x40 % 0x40, c % 0x40, rest);
    } else {
      DecodeFour(c, c / 0x4_0000, c / 0x1000 % 0x40, c / 0x40 % 0x40, c % 0x40, rest);
    }
  }

  lemma {:induction false} DecodeOne(c: Scalar, rest: Bytes)
    requires c < 0x80
    ensures DecodeScalar(EncodeScalar(c) + rest) == Some((c, |EncodeScalar(c)|))
  {
  }

  lemma {:induction false} DecodeTwo(c: Scalar, x: nat, y: nat, rest: Bytes)
    requires 0x80 <= c < 0x800 && x == c / 0x40 && y == c % 0x40 && c == x * 0x40 + y && y < 0x40
    ensures DecodeScalar(EncodeScalar(c) + rest) == Some((c, |EncodeScalar(c)|))
  {
    var b := EncodeScalar(c) + rest;
    assert b[0] == 0xC0 + x && b[1] == 0x80 + y;
    hide EncodeScalar;
  }

  lemma {:induction false} DecodeThree(c: Scalar, x: nat, y: nat, z: nat, rest: Bytes)
    requires 0x800 <= c < 0x1_0000 && x == c / 0x1000 && y == c / 0x40 % 0x40 && z == c % 0x40
    requires c == x * 0x1000 + y * 0x40 + z && y < 0x40 && z < 0x40
    ensures DecodeScalar(EncodeScalar(c) + rest) == Some((c, |EncodeScalar(c)|))
  {
    var b := EncodeScalar(c) + rest;
    assert b[0] == 0xE0 + x && b[1] == 0x80 + y && b[2] == 0x80 + z && x < 0x10;
    hide EncodeScalar;
  }

  lemma {:induction false} DecodeFour(c: Scalar, x: nat, y: nat, z: nat, u: nat, rest: Bytes)
    requires c >= 0x1_0000 && x == c / 0x4_0000 && y == c / 0x1000 % 0x40 && z == c / 0x40 % 0x40 && u == c % 0x40
    requires c == x * 0x4_0000 + y * 0x1000 + z * 0x40 + u && y < 0x40 && z < 0x40 && u < 0x40
    ensures DecodeScalar(EncodeScalar(c) + rest) == Some((c, |EncodeScalar(c)|))
  {
    var b := EncodeScalar(c) + rest;
    assert b[0] == 0xF0 + x && b[1] == 0x80 + y && b[2] == 0x80 + z && b[3] == 0x80 + u && x < 5;
    hide EncodeScalar;
  }

  /** Six bits at a time, from the other side. */
  lemma {:induction false} Regrouped(a: nat, x: nat, y: nat, z: nat)
    requires x < 0x40 && y < 0x40 && z < 0x40
    ensures var c := a * 0x4_0000 + x * 0x1000 + y * 0x40 + z;
      && c % 0x40 == z && c / 0x40 == a * 0x1000 + x * 0x40 + y
      && c / 0x40 % 0x40 == y && c / 0x1000 == a * 0x40 + x
      && c / 0x1000 % 0x40 == x && c / 0x4_0000 == a
  {
  }

  lemma {:induction false} EncodeTwo(c: Scalar, y: nat, z: nat)
    requires 0x80 <= c < 0x800 && c == y * 0x40 + z && z < 0x40
    ensures EncodeScalar(c) == [0xC0 + y, 0x80 + z]
  {
  }

  lemma {:induction false} EncodeThree(c: Scalar, x: nat, y: nat, z: nat)
    requires 0x800 <= c < 0x1_0000 && c == x * 0x1000 + y * 0x40 + z && y < 0x40 && z < 0x40
    ensures EncodeScalar(c) == [0xE0 + x, 0x80 + y, 0x80 + z]
  {
    Regrouped(0, x, y, z);
  }

  lemma {:induction false} EncodeFour(c: Scalar, a: nat, x: nat, y: nat, z: nat)
    requires 0x1_0000 <= c && c == a * 0x4_0000 + x * 0x1000 + y * 0x40 + z && x < 0x40 && y < 0x40 && z < 0x40
    ensures EncodeScalar(c) == [0xF0 + a, 0x80 + x, 0x80 + y, 0x80 + z]
  {
    Regrouped(a, x, y, z);
  }

  lemma {:induction false} EncodeDecodedScalar(b: Bytes)
    requires b != [] && DecodeScalar(b).Some?
    ensures EncodeScalar(DecodeScalar(b).value.0) == b[..DecodeScalar(b).value.1]
  {
    var (c, n) := DecodeScalar(b).value;
    if n == 2 {
      EncodeTwo(c, b[0] as int - 0xC0, b[1] as int - 0x80);
    } else if n == 3 {
      EncodeThree(c, b[0] as int - 0xE0, b[1] as int - 0x80, b[2] as int - 0x80);
    } else if n == 4 {
      EncodeFour(c, b[0] as int - 0xF0, b[1] as int - 0x80, b[2] as int - 0x80, b[3] as int - 0x80);
    } else {
      assert c < 0x80;
    }
  }

  /** One byte below U+0080, two below U+0800, three below U+10000, else four; the first byte tells how
      many follow, and those carry six bits each. */
  lemma {:induction false} EncodedShape(c: Scalar)
    ensures |EncodeScalar(c)| == if c < 0x80 then 1 else if c < 0x800 then 2 else if c < 0x1_0000 then 3 else 4
    ensures var b := EncodeScalar(c);
      && (|b| == 1 ==> b[0] < 0x80) && (|b| == 2 ==> 0xC0 <= b[0] < 0xE0)
      && (|b| == 3 ==> 0xE0 <= b[0] < 0xF0) && (|b| == 4 ==> 0xF0 <= b[0] < 0xF8)
      && (forall i :: 1 <= i < |b| ==> 0x80 <= b[i] < 0xC0)
      && (|b| > 1 ==> b[|b| - 1] % 0x40 == c % 0x40)
      && (|b| > 2 ==> b[|b| - 2] % 0x40 == c / 0x40 % 0x40)
      && (|b| > 3 ==> b[|b| - 3] % 0x40 == c / 0x1000 % 0x40)
  {
  }

  /** Encoding then decoding is the identity: UTF-8 loses no scalar value. */
  lemma {:induction false} DecodeEncoded(s: seq<Scalar>)
    ensures DecodeScalars(EncodeScalars(s)) == Some(s)
  {
    if s != [] {
      var head, rest := EncodeScalar(s[0]), EncodeScalars(s[1..]);
      DecodeEncodedScalar(s[0], rest);
      assert (head + rest)[|head|..] == rest;
      DecodeEncoded(s[1..]);
      assert s == [s[0]] + s[1..];
    }
  }

  /** Whatever decodes is the encoding of what it decodes to: there is one spelling only. */
  lemma {:induction false} EncodeDecoded(b: Bytes)
    requires DecodeScalars(b).Some?
    ensures EncodeScalars(DecodeScalars(b).value) == b
    decreases |b|
  {
    hide DecodeScalar, EncodeScalar;
    if b != [] {
      var (c, n) := DecodeScalar(b).value;
      EncodeDecodedScalar(b);
      EncodeDecoded(b[n..]);
      var s := DecodeScalars(b).value;
      assert s[0] == c && s[1..] == DecodeScalars(b[n..]).value;
      assert b == b[..n] + b[n..];
    }
  }

  /** `TextEncoder.encode`, `utf8ToBytes`, `stringToHex`. */
  function Utf8Encode(t: Text): Bytes { EncodeScalars(Scalars(t)) }

  /** `TextDecoder.decode`: one leading byte order mark is dropped, and malformed input goes
      through `lossy`, the runtime's replacement decoding. */
  function Utf8Decode(b: Bytes, lossy: Bytes -> Text): Text {
    match DecodeScalars(b)
    case None => lossy(b)
    case Some(s) => FromScalars(StripBom(s))
  }

  function StripBom(s: seq<Scalar>): seq<Scalar> {
    if s != [] && s[0] == BOM then s[1..] else s
  }

  /** Bytes determine well-formed text; text with a lone surrogate shares its bytes with another. */
  lemma {:induction false} Utf8Injective(a: Text, b: Text)
    requires WellFormed(a) && WellFormed(b) && Utf8Encode(a) == Utf8Encode(b)
    ensures a == b
  {
    DecodeEncoded(Scalars(a));
    DecodeEncoded(Scalars(b));
    ScalarsLossless(a);
    ScalarsLossless(b);
  }

  /** Reading back what was written: exact for well-formed text that does not open with a BOM. */
  lemma {:induction false} Utf8RoundTrip(t: Text, lossy: Bytes -> Text)
    requires WellFormed(t) && (t != [] ==> t[0] != BOM)
    ensures Utf8Decode(Utf8Encode(t), lossy) == t
  {
    DecodeEncoded(Scalars(t));
    ScalarsLossless(t);
    if t != [] {
      assert Scalars(t)[0] != BOM;
    }
  }
}
