/** JSON numbers: how ECMAScript prints a finite number and how the JSON grammar reads it back.

    A finite double is held as the shortest decimal that names it, which is what
    `Number::toString` of ECMA-262 prints: digits d1..dk and a point n with value 0.d1..dk * 10^n. */
module Numbers {
  import opened Utf

  predicate Digit(u: Unit) { 48 <= u <= 57 }
  predicate Digits(t: Text) { forall u :: u in t ==> Digit(u) }

  const ZERO: Unit := 48
  const MINUS: Unit := 45
  const PLUS: Unit := 43
  const DOT: Unit := 46
  const EXP: Unit := 101
  const EXP_UPPER: Unit := 69

  datatype Decimal = Zero(neg: bool) | Finite(neg: bool, digits: Text, point: int) {
    /** No leading or trailing zero digit, so each value has one decimal. */
    predicate Valid() {
      Finite? ==> digits != [] && Digits(digits) && digits[0] != ZERO && digits[|digits| - 1] != ZERO
    }
  }

  type Number = x: Decimal | x.Valid() witness Zero(false)

  // Naturals in decimal

  function Dec(n: nat): (t: Text)
    ensures t != [] && Digits(t) && (t[0] == ZERO ==> n == 0)
  {
    if n < 10 then [ZERO + n] else Dec(n / 10) + [ZERO + n % 10]
  }

  function NatOf(t: Text): nat
    requires Digits(t)
  {
    if t == [] then 0
    else
      assert forall u :: u in t[..|t| - 1] ==> u in t;
      assert Digit(t[|t| - 1]);
      10 * NatOf(t[..|t| - 1]) + (t[|t| - 1] - ZERO)
  }

  lemma {:induction false} NatOfDec(n: nat)
    ensures NatOf(Dec(n)) == n
  {
    if n >= 10 {
      NatOfDec(n / 10);
      assert Dec(n)[..|Dec(n)| - 1] == Dec(n / 10);
    }
  }

  function Zeros(n: nat): (t: Text)
    ensures |t| == n && forall i :: 0 <= i < n ==> t[i] == ZERO
  {
    seq(n, i => ZERO)
  }

  // The three parts of a JSON number (section 6 of RFC 8259)

  datatype Parts = Parts(int_: Text, frac: Text, exp: Option<int>) {
    predicate Valid() {
      && int_ != [] && Digits(int_) && (int_[0] == ZERO ==> |int_| == 1)
      && Digits(frac)
    }
  }

  function FracText(frac: Text): Text {
    if frac == [] then [] else [DOT] + frac
  }

  function ExpText(exp: Option<int>): Text {
    match exp
    case None => []
    case Some(e) => [EXP] + (if e < 0 then [MINUS] + Dec(-e) else [PLUS] + Dec(e))
  }

  function PartsText(p: Parts): Text {
    p.int_ + (FracText(p.frac) + ExpText(p.exp))
  }

  /** `Number::toString`: plain digits for exponents in -6..21, scientific notation beyond. */
  function Layout(digits: Text, n: int): (p: Parts)
    requires Finite(false, digits, n).Valid()
    ensures p.Valid()
  {
    var k := |digits|;
    if k <= n <= 21 then Parts(digits + Zeros(n - k), [], None)
    else if 0 < n <= 21 then Parts(digits[..n], digits[n..], None)
    else if -6 < n <= 0 then Parts([ZERO], Zeros(-n) + digits, None)
    else Parts(digits[..1], digits[1..], Some(n - 1))
  }

  function WithSign(neg: bool, t: Text): Text {
    if neg then [MINUS] + t else t
  }

  /** `JSON.stringify` of a finite number. Both zeros print alike. */
  function NumberText(x: Number): Text {
    match x
    case Zero(_) => [ZERO]
    case Finite(neg, digits, n) =>
      WithSign(neg, PartsText(Layout(digits, n)))
  }

  // Reading

  function DigitRun(t: Text): (n: nat)
    ensures n <= |t|
    ensures forall i :: 0 <= i < n ==> Digit(t[i])
    ensures n < |t| ==> !Digit(t[n])
  {
    if t == [] || !Digit(t[0]) then 0 else 1 + DigitRun(t[1..])
  }

  /** A fraction, when a point starts the text; a point must be followed by digits. */
  function ParseFrac(t: Text): (r: Option<(Text, Text)>)
    ensures r.Some? ==> Digits(r.value.0) && |r.value.1| <= |t|
  {
    if t == [] || t[0] != DOT then Some(([], t))
    else
      var n := DigitRun(t[1..]);
      if n == 0 then None else Some((t[1..1 + n], t[1 + n..]))
  }

  function ParseExp(t: Text): (r: Option<(Option<int>, Text)>)
    ensures r.Some? ==> |r.value.1| <= |t|
  {
    if t == [] || (t[0] != EXP && t[0] != EXP_UPPER) then Some((None, t))
    else
      var signed := |t| > 1 && (t[1] == MINUS || t[1] == PLUS);
      var s := if signed then t[2..] else t[1..];
      var n := DigitRun(s);
      if n == 0 then None
      else
        var e: int := NatOf(s[..n]);
        Some((Some(if signed && t[1] == MINUS then -e else e), s[n..]))
  }

  function ParseParts(t: Text): (r: Option<(Parts, Text)>)
    ensures r.Some? ==> r.value.0.Valid() && |r.value.1| < |t|
  {
    var run := DigitRun(t);
    if run == 0 then None
    else
      var n := if t[0] == ZERO then 1 else run;
      match ParseFrac(t[n..])
      case None => None
      case Some((frac, s)) =>
        match ParseExp(s)
        case None => None
        case Some((exp, rest)) => Some((Parts(t[..n], frac, exp), rest))
  }

  function LeadingZeros(t: Text): (n: nat)
    ensures n <= |t| && (n < |t| ==> t[n] != ZERO)
  {
    if t == [] || t[0] != ZERO then 0 else 1 + LeadingZeros(t[1..])
  }

  function TrimZeros(t: Text): (r: Text)
    ensures r <= t && (r != [] ==> r[|r| - 1] != ZERO)
  {
    if t == [] || t[|t| - 1] != ZERO then t else TrimZeros(t[..|t| - 1])
  }

  /** The decimal that `p` names. */
  function Assemble(neg: bool, p: Parts): Number
    requires p.Valid()
  {
    var all := p.int_ + p.frac;
    var lead := LeadingZeros(all);
    var digits := TrimZeros(all[lead..]);
    if digits == [] then Zero(neg)
    else Finite(neg, digits, |p.int_| + (if p.exp.None? then 0 else p.exp.value) - lead)
  }

  function Signed(neg: bool, r: Option<(Parts, Text)>): Option<(Number, Text)>
    requires r.Some? ==> r.value.0.Valid()
  {
    match r
    case None => None
    case Some((p, rest)) => Some((Assemble(neg, p), rest))
  }

  function ParseNumber(t: Text): (r: Option<(Number, Text)>)
    ensures r.Some? ==> |r.value.1| < |t|
  {
    if t != [] && t[0] == MINUS then Signed(true, ParseParts(t[1..])) else Signed(false, ParseParts(t))
  }

  // Round trip

  /** `rest` cannot be mistaken for a continuation of a number. */
  predicate NumberEnds(rest: Text) {
    rest != [] ==> !Digit(rest[0]) && rest[0] !in {DOT, EXP, EXP_UPPER}
  }

  lemma {:induction false} DigitRunExact(d: Text, rest: Text)
    requires Digits(d) && (rest != [] ==> !Digit(rest[0]))
    ensures DigitRun(d + rest) == |d|
  {
    if d == [] {
      assert d + rest == rest;
    } else {
      assert d[0] in d;
      assert (d + rest)[1..] == d[1..] + rest;
      DigitRunExact(d[1..], rest);
    }
  }

  lemma {:induction false} ParseExpDigits(neg: bool, d: Text, rest: Text)
    requires NumberEnds(rest) && d != [] && Digits(d)
    ensures ParseExp([EXP] + ([if neg then MINUS else PLUS] + d) + rest)
         == Some((Some((if neg then -1 else 1) * NatOf(d)), rest))
  {
    hide NatOf, DigitRun, Digits, NumberEnds;
    var t, s := [EXP] + ([if neg then MINUS else PLUS] + d) + rest, d + rest;
    assert t[2..] == s;
    DigitRunExact(d, rest) by {
      assert rest != [] ==> !Digit(rest[0]) by { EndsNotDigit(rest); }
    }
    assert s[..|d|] == d && s[|d|..] == rest;
  }

  lemma {:induction false} EndsNotDigit(rest: Text)
    requires NumberEnds(rest)
    ensures rest != [] ==> !Digit(rest[0])
  {
  }

  lemma {:induction false} ParseExpText(exp: Option<int>, rest: Text)
    requires NumberEnds(rest)
    ensures ParseExp(ExpText(exp) + rest) == Some((exp, rest))
  {
    match exp
    case None =>
      assert ExpText(exp) + rest == rest;
    case Some(e) =>
      var abs: nat := if e < 0 then -e else e;
      hide ParseExp, Dec, NatOf;
      ParseExpDigits(e < 0, Dec(abs), rest);
      NatOfDec(abs);
      assert ExpText(exp) + rest == [EXP] + ([if e < 0 then MINUS else PLUS] + Dec(abs)) + rest;
  }

  lemma {:induction false} ParseFracText(frac: Text, tail: Text)
    requires Digits(frac) && (tail != [] ==> !Digit(tail[0]) && tail[0] != DOT)
    ensures ParseFrac(FracText(frac) + tail) == Some((frac, tail))
  {
    var t := FracText(frac) + tail;
    if frac == [] {
      assert t == tail;
    } else {
      assert t[1..] == frac + tail;
      DigitRunExact(frac, tail);
      assert t[1..1 + |frac|] == frac && t[1 + |frac|..] == tail;
    }
  }

  lemma {:induction false} TailStarts(exp: Option<int>, rest: Text)
    requires NumberEnds(rest)
    ensures ExpText(exp) + rest != [] ==> !Digit((ExpText(exp) + rest)[0]) && (ExpText(exp) + rest)[0] != DOT
  {
  }

  lemma {:induction false} FracStarts(frac: Text, tail: Text)
    requires tail != [] ==> !Digit(tail[0])
    ensures FracText(frac) + tail != [] ==> !Digit((FracText(frac) + tail)[0])
  {
  }

  /** The integer part ends where the digits do. */
  lemma {:induction false} IntPart(d: Text, mid: Text)
    requires d != [] && Digits(d) && (d[0] == ZERO ==> |d| == 1) && (mid != [] ==> !Digit(mid[0]))
    ensures DigitRun(d + mid) == |d| == if (d + mid)[0] == ZERO then 1 else DigitRun(d + mid)
    ensures (d + mid)[..|d|] == d && (d + mid)[|d|..] == mid
  {
    DigitRunExact(d, mid);
    hide DigitRun;
  }

  /** A number in three parts, each read in turn. */
  lemma {:induction false} ThreeParts(t: Text, n: nat, mid: Text, frac: Text, tail: Text, exp: Option<int>, rest: Text)
    requires 0 < n <= |t| && DigitRun(t) > 0 && n == (if t[0] == ZERO then 1 else DigitRun(t)) && t[n..] == mid
    requires ParseFrac(mid) == Some((frac, tail)) && ParseExp(tail) == Some((exp, rest))
    ensures ParseParts(t) == Some((Parts(t[..n], frac, exp), rest))
  {
    hide DigitRun, ParseFrac, ParseExp, Digits;
  }

  lemma {:induction false} ParsePartsText(p: Parts, rest: Text)
    requires p.Valid() && NumberEnds(rest)
    ensures ParseParts(PartsText(p) + rest) == Some((p, rest))
  {
    hide DigitRun, ParseFrac, ParseExp, ParseParts, FracText, ExpText, NumberEnds, Digits, Digit;
    var d, tail := p.int_, ExpText(p.exp) + rest;
    var mid := FracText(p.frac) + tail;
    Regroup(d, FracText(p.frac), ExpText(p.exp), rest);
    TailStarts(p.exp, rest);
    FracStarts(p.frac, tail);
    IntPart(d, mid);
    ParseFracText(p.frac, tail);
    ParseExpText(p.exp, rest);
    ThreeParts(d + mid, |d|, mid, p.frac, tail, p.exp, rest);
  }

  lemma {:induction false} Regroup(a: Text, b: Text, c: Text, d: Text)
    ensures (a + (b + c)) + d == a + (b + (c + d))
  {
  }

  lemma {:induction false} LeadingZerosExact(m: nat, d: Text)
    requires d != [] ==> d[0] != ZERO
    ensures LeadingZeros(Zeros(m) + d) == m
  {
    if m == 0 {
      assert Zeros(m) + d == d;
    } else {
      assert (Zeros(m) + d)[1..] == Zeros(m - 1) + d;
      LeadingZerosExact(m - 1, d);
    }
  }

  lemma {:induction false} TrimZerosExact(d: Text, m: nat)
    requires d != [] ==> d[|d| - 1] != ZERO
    ensures TrimZeros(d + Zeros(m)) == d
  {
    if m == 0 {
      assert d + Zeros(m) == d;
    } else {
      var t := d + Zeros(m);
      assert t[..|t| - 1] == d + Zeros(m - 1);
      TrimZerosExact(d, m - 1);
    }
  }

  lemma {:induction false} AssembleShifted(neg: bool, p: Parts, zeros: nat, digits: Text, more: nat)
    requires p.Valid() && p.int_ + p.frac == Zeros(zeros) + digits + Zeros(more)
    requires digits != [] && digits[0] != ZERO && digits[|digits| - 1] != ZERO
    ensures Assemble(neg, p) == Finite(neg, digits, |p.int_| + (if p.exp.None? then 0 else p.exp.value) - zeros)
  {
    hide LeadingZeros, TrimZeros, Zeros;
    var tail := digits + Zeros(more);
    assert Zeros(zeros) + digits + Zeros(more) == Zeros(zeros) + tail;
    LeadingZerosExact(zeros, tail);
    assert (Zeros(zeros) + tail)[zeros..] == tail;
    TrimZerosExact(digits, more);
  }

  lemma {:induction false} AssembleLayout(neg: bool, digits: Text, n: int)
    requires Finite(neg, digits, n).Valid()
    ensures Assemble(neg, Layout(digits, n)) == Finite(neg, digits, n)
  {
    var k, p := |digits|, Layout(digits, n);
    var zeros := if !(0 < n <= 21) && -6 < n <= 0 then 1 - n else 0;
    var more := if k <= n <= 21 then n - k else 0;
    assert p.int_ + p.frac == Zeros(zeros) + digits + Zeros(more);
    AssembleShifted(neg, p, zeros, digits, more);
  }

  /** The number a printed number reads back as: the sign of a zero does not survive. */
  function Unsigned(x: Number): Number {
    if x.Zero? then Zero(false) else x
  }

  predicate Ascii7(t: Text) { forall u :: u in t ==> 32 < u < 128 }

  /** A printed number starts with a digit and is ASCII throughout. */
  lemma {:induction false} PartsTextShape(p: Parts)
    requires p.Valid()
    ensures PartsText(p) != [] && Digit(PartsText(p)[0]) && Ascii7(PartsText(p))
  {
    assert p.int_[0] in p.int_;
    assert Ascii7(FracText(p.frac));
    assert Ascii7(ExpText(p.exp));
  }

  lemma {:induction false} ParseWithSign(neg: bool, s: Text, rest: Text)
    requires s != [] && s[0] != MINUS
    ensures ParseNumber(WithSign(neg, s) + rest) == Signed(neg, ParseParts(s + rest))
  {
    if neg {
      assert (WithSign(neg, s) + rest)[1..] == s + rest;
    }
  }

  /** Reading a printed number gives the number back, however the text goes on. */
  lemma {:induction false} ParseNumberText(x: Number, rest: Text)
    requires NumberEnds(rest)
    ensures ParseNumber(NumberText(x) + rest) == Some((Unsigned(x), rest))
  {
    match x
    case Zero(_) =>
      var p := Parts([ZERO], [], None);
      assert PartsText(p) == [ZERO];
      ParsePartsText(p, rest);
      ParseWithSign(false, [ZERO], rest);
      AssembleShiftedZero(p);
    case Finite(neg, digits, n) =>
      var p := Layout(digits, n);
      PartsTextShape(p);
      ParsePartsText(p, rest);
      ParseWithSign(neg, PartsText(p), rest);
      AssembleLayout(neg, digits, n);
  }

  lemma {:induction false} AssembleShiftedZero(p: Parts)
    requires p == Parts([ZERO], [], None)
    ensures Assemble(false, p) == Zero(false)
  {
    assert p.int_ + p.frac == Zeros(1) + [];
    LeadingZerosExact(1, []);
  }

  /** The first unit of a printed number is a sign or a digit, and every unit is printable ASCII. */
  lemma {:induction false} NumberTextShape(x: Number)
    ensures NumberText(x) != [] && (NumberText(x)[0] == MINUS || Digit(NumberText(x)[0]))
    ensures Ascii7(NumberText(x))
  {
    if x.Finite? {
      PartsTextShape(Layout(x.digits, x.point));
    }
  }

  /** `k / 10^dp` as a number. */
  function Scaled(k: int, dp: nat): Number {
    Assemble(k < 0, Parts(Dec(if k < 0 then -k else k), [], Some(-(dp as int))))
  }

  // Values

  function Pow10(n: nat): (r: int)
    ensures r >= 1
  {
    if n == 0 then 1 else 10 * Pow10(n - 1)
  }

  /** The real a number stands for; rounding to the nearest double is not modelled. */
  function ToReal(x: Number): real {
    match x
    case Zero(_) => 0.0
    case Finite(neg, digits, n) =>
      var e := n - |digits|;
      var abs := if e >= 0 then (NatOf(digits) * Pow10(e)) as real else NatOf(digits) as real / Pow10(-e) as real;
      if neg then -abs else abs
  }

  lemma {:induction false} Pow10Sum(a: nat, b: nat)
    ensures Pow10(a + b) == Pow10(a) * Pow10(b)
  {
    if a > 0 {
      Pow10Sum(a - 1, b);
    }
  }

  lemma {:induction false} NatOfTrailing(t: Text)
    requires Digits(t) && t != [] && t[|t| - 1] == ZERO
    ensures Digits(t[..|t| - 1]) && NatOf(t) == 10 * NatOf(t[..|t| - 1])
  {
    assert forall u :: u in t[..|t| - 1] ==> u in t;
  }

  lemma {:induction false} TenTimes(a: nat, p: int)
    ensures 10 * (a * p) == a * (10 * p)
  {
  }

  /** Trailing zeros are factors of ten. */
  lemma {:induction false} TrimmedValue(t: Text)
    requires Digits(t)
    ensures TrimZeros(t) <= t && Digits(TrimZeros(t))
    ensures NatOf(t) == NatOf(TrimZeros(t)) * Pow10(|t| - |TrimZeros(t)|)
  {
    hide NatOf, Digits;
    if t != [] && t[|t| - 1] == ZERO {
      var init := t[..|t| - 1];
      NatOfTrailing(t);
      TrimmedValue(init);
      var d := TrimZeros(init);
      assert TrimZeros(t) == d;
      hide TrimZeros;
      TenTimes(NatOf(d), Pow10(|init| - |d|));
    }
  }

  /** `d * 10^m` divided by `10^dp`, as `ToReal` computes it. */
  lemma {:induction false} Shifted(d: nat, m: nat, dp: nat)
    ensures m >= dp ==> (d * Pow10(m - dp)) as real == (d * Pow10(m)) as real / Pow10(dp) as real
    ensures m < dp ==> d as real / Pow10(dp - m) as real == (d * Pow10(m)) as real / Pow10(dp) as real
  {
    hide Pow10;
    if m >= dp {
      Pow10Sum(m - dp, dp);
      Cancel(d * Pow10(m - dp), 1, Pow10(dp));
      assert d * Pow10(m - dp) * Pow10(dp) == d * Pow10(m);
    } else {
      Pow10Sum(dp - m, m);
      Cancel(d, Pow10(dp - m), Pow10(m));
    }
  }

  lemma {:induction false} Cancel(a: nat, b: int, c: int)
    requires b > 0 && c > 0
    ensures (a * c) as real / (b * c) as real == a as real / b as real
  {
    var x, y, z := a as real, b as real, c as real;
    assert (a * c) as real == x * z && (b * c) as real == y * z;
    assert (x * z) / (y * z) == x / y;
  }

  lemma {:induction false} ScaledShape(k: int, dp: nat, t: Text)
    requires k != 0 && t == Dec(if k < 0 then -k else k)
    ensures Digits(t) && TrimZeros(t) != [] && Finite(k < 0, TrimZeros(t), |t| - dp).Valid()
    ensures Scaled(k, dp) == Finite(k < 0, TrimZeros(t), |t| - dp)
  {
    hide Dec, NatOf;
    assert LeadingZeros(t) == 0;
    assert TrimZeros(t) != [] by {
      TrimmedSome(t);
    }
    assert t + [] == t && t[0..] == t;
  }

  lemma {:induction false} TrimmedSome(t: Text)
    requires t != [] && t[0] != ZERO
    ensures TrimZeros(t) != []
  {
    if |t| > 1 && t[|t| - 1] == ZERO {
      TrimmedSome(t[..|t| - 1]);
    }
  }

  lemma {:induction false} Magnitude(neg: bool, d: Text, m: nat, dp: nat)
    requires Digits(d) && Finite(neg, d, |d| + m - dp).Valid()
    ensures var abs := (NatOf(d) * Pow10(m)) as real / Pow10(dp) as real;
      ToReal(Finite(neg, d, |d| + m - dp)) == if neg then -abs else abs
  {
    hide NatOf, Pow10, Digits;
    Shifted(NatOf(d), m, dp);
  }

  /** A scaled number stands for the quotient it is named after. */
  lemma {:induction false} ScaledValue(k: int, dp: nat)
    ensures ToReal(Scaled(k, dp)) == k as real / Pow10(dp) as real
  {
    hide Scaled, TrimZeros, NatOf, Pow10, Digits, Dec;
    var n: nat := if k < 0 then -k else k;
    var t := Dec(n);
    NatOfDec(n);
    if n == 0 {
      ScaledZero(dp);
    } else {
      ScaledShape(k, dp, t);
      TrimmedValue(t);
      var d := TrimZeros(t);
      hide ToReal;
      Magnitude(k < 0, d, |t| - |d|, dp);
    }
  }

  lemma {:induction false} ScaledZero(dp: nat)
    ensures Scaled(0, dp) == Zero(false)
  {
    var p := Parts(Dec(0), [], Some(-(dp as int)));
    assert p.int_ + p.frac == [ZERO];
    assert LeadingZeros([ZERO]) == 1;
    hide Dec;
  }

  // The layout

  /** One digit, the others behind a point, and the exponent with its sign. */
  function Scientific(digits: Text, n: int): Text
    requires digits != []
  {
    var point, e := if |digits| == 1 then [] else [46] + digits[1..], if n > 0 then n - 1 else 1 - n;
    digits[..1] + (point + ([101, if n > 0 then 43 else 45] + if e >= 0 then Dec(e) else []))
  }

  /** Numbers from 1e-6 up to 1e21 are printed in plain digits, all others in scientific notation. */
  lemma {:induction false} ScientificExactly(digits: Text, n: int)
    requires Finite(false, digits, n).Valid()
    ensures 101 in PartsText(Layout(digits, n)) <==> n <= -6 || n > 21
    ensures n <= -6 || n > 21 ==> PartsText(Layout(digits, n)) == Scientific(digits, n)
  {
    hide Dec;
    var p := Layout(digits, n);
    if n <= -6 || n > 21 {
      var e := Dec(if n > 0 then n - 1 else 1 - n);
      assert ExpText(p.exp) == [101, if n > 0 then 43 else 45] + e;
      HasUnit(p.int_, FracText(p.frac), ExpText(p.exp), 101);
    } else {
      PlainText(p);
    }
  }

  lemma {:induction false} HasUnit(a: Text, b: Text, c: Text, u: Unit)
    requires c != [] && c[0] == u
    ensures u in a + (b + c)
  {
    assert (a + (b + c))[|a| + |b|] == u;
  }

  lemma {:induction false} PlainText(p: Parts)
    requires p.Valid() && p.exp.None?
    ensures 101 !in PartsText(p)
  {
    assert PartsText(p) == p.int_ + FracText(p.frac);
  }
}
