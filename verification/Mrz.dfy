/** The machine-readable zone of a reference (app/src/lib/mrz.ts): line 2 of a TD3 document with the
    7-3-1 check digits of section 4.9 of ICAO Doc 9303 Part 3, and exactly which misprints they catch. */
module Mrz {
  import opened Utf

  const MRZ_LINE_LENGTH := 44
  const ISSUING_NAMESPACE := Ascii("ENS")
  const FILLER: Unit := 60

  function CharValue(c: Unit): (v: nat)
    ensures v <= 35
  {
    if 48 <= c <= 57 then c - 48 else if 65 <= c <= 90 then c - 55 else 0
  }

  function Weight(i: nat): (w: nat)
    ensures w in {7, 3, 1}
  {
    if i % 3 == 0 then 7 else if i % 3 == 1 then 3 else 1
  }

  function Weighted(t: Text, n: nat): nat
    requires n <= |t|
  {
    if n == 0 then 0 else Weighted(t, n - 1) + CharValue(t[n - 1]) * Weight(n - 1)
  }

  function Digit(t: Text): Unit { 48 + Weighted(t, |t|) % 10 }

  method CheckDigit(input: Text) returns (d: Unit)
    ensures d == Digit(input)
  {
    var weights := [7, 3, 1];
    var sum := 0;
    for i := 0 to |input|
      invariant sum == Weighted(input, i)
    {
      sum := sum + CharValue(input[i]) * weights[i % 3];
    }
    d := 48 + sum % 10;
  }

  /** The values of the characters at positions `from`, `from + 3`, `from + 6` and so on below `n`. */
  function EveryThird(t: Text, from: nat, n: nat): nat
    requires n <= |t|
  {
    if n == 0 then 0 else EveryThird(t, from, n - 1) + if (n - 1) % 3 == from then CharValue(t[n - 1]) else 0
  }

  lemma {:induction false} WeightedInThirds(t: Text, n: nat)
    requires n <= |t|
    ensures Weighted(t, n) == 7 * EveryThird(t, 0, n) + 3 * EveryThird(t, 1, n) + EveryThird(t, 2, n)
  {
    hide CharValue;
    if n > 0 {
      WeightedInThirds(t, n - 1);
    }
  }

  /** The digit of a text is one sum over its characters: seven times those at the first of each three
      positions, three times those at the second and once those at the third, modulo ten. Digits count as
      themselves, the letters from ten to thirty-five, and anything else as nothing. */
  lemma {:induction false} DigitOfThirds(t: Text)
    ensures 48 <= Digit(t) <= 57
    ensures Digit(t) - 48 == (7 * EveryThird(t, 0, |t|) + 3 * EveryThird(t, 1, |t|) + EveryThird(t, 2, |t|)) % 10
    ensures forall c: Unit ::
      CharValue(c) == if 48 <= c <= 57 then c - 48 else if 65 <= c <= 90 then 10 + (c - 65) else 0
  {
    WeightedInThirds(t, |t|);
  }

  datatype Fields = Fields(docNo: Text, from: Text, expiry: Text, personal: Text)

  function Composite(line: Text): Text
    requires |line| == MRZ_LINE_LENGTH
  {
    line[..9] + line[9..10] + line[13..19] + line[19..20] + line[21..27] + line[27..28] + line[28..42] + line[42..43]
  }

  predicate FieldOk(line: Text, start: nat, end: nat)
    requires start <= end < |line|
  {
    Digit(line[start..end]) == line[end]
  }

  predicate CompositeOk(line: Text)
    requires |line| == MRZ_LINE_LENGTH
  {
    Digit(Composite(line)) == line[43]
  }

  /** All five printed digits are the digits recomputed. */
  predicate Accepts(line: Text) {
    && |line| == MRZ_LINE_LENGTH
    && FieldOk(line, 0, 9) && FieldOk(line, 13, 19) && FieldOk(line, 21, 27) && FieldOk(line, 28, 42)
    && CompositeOk(line)
  }

  function FieldsOf(line: Text): Fields
    requires |line| == MRZ_LINE_LENGTH
  {
    Fields(line[..9], line[13..19], line[21..27], line[28..42])
  }

  method ReadMrzLine2(line2: Text) returns (fields: Option<Fields>, ok: bool)
    ensures ok <==> Accepts(line2)
    ensures fields == if |line2| == MRZ_LINE_LENGTH then Some(FieldsOf(line2)) else None
  {
    if |line2| != MRZ_LINE_LENGTH {
      return None, false;
    }
    var docNo, from, expiry, personal := line2[..9], line2[13..19], line2[21..27], line2[28..42];
    var composite := docNo + line2[9..10] + from + line2[19..20] + expiry + line2[27..28] + personal + line2[42..43];
    var dDoc := CheckDigit(docNo);
    var dFrom := CheckDigit(from);
    var dExpiry := CheckDigit(expiry);
    var dPersonal := CheckDigit(personal);
    var dComposite := CheckDigit(composite);
    assert line2[0..9] == docNo && composite == Composite(line2);
    ok := dDoc == line2[9] && dFrom == line2[19] && dExpiry == line2[27] && dPersonal == line2[42]
        && dComposite == line2[43];
    fields := Some(Fields(docNo, from, expiry, personal));
  }

  // Printing

  predicate Printable(c: Unit) { 48 <= c <= 57 || 65 <= c <= 90 || c == FILLER }

  /** `pad` of text already in upper case. */
  function Pad(upper: Text, length: nat): (r: Text)
    ensures |r| == length
    ensures forall i :: 0 <= i < length ==>
              Printable(r[i]) && r[i] == if i < |upper| && Printable(upper[i]) then upper[i] else FILLER
  {
    seq(length, i requires 0 <= i < length => if i < |upper| && Printable(upper[i]) then upper[i] else FILLER)
  }

  /** Padding keeps digits and capital letters and makes a filler of everything else. */
  lemma {:induction false} PadKeeps(upper: Text, length: nat, i: nat)
    requires i < length
    ensures Pad(upper, length)[i] ==
      if i < |upper| && ('0' as int <= upper[i] <= '9' as int || 'A' as int <= upper[i] <= 'Z' as int) then upper[i]
      else '<' as int
  {
  }

  /** Line 2 as `buildMrz` prints it. */
  function BuildLine2(f: Fields): Text {
    var dDoc, dFrom, dExpiry, dPersonal := [Digit(f.docNo)], [Digit(f.from)], [Digit(f.expiry)], [Digit(f.personal)];
    var composite := f.docNo + dDoc + f.from + dFrom + f.expiry + dExpiry + f.personal + dPersonal;
    f.docNo + dDoc + ISSUING_NAMESPACE + f.from + dFrom + [FILLER] + f.expiry + dExpiry + f.personal + dPersonal
    + [Digit(composite)]
  }

  predicate WellSized(f: Fields) {
    |f.docNo| == 9 && |f.from| == 6 && |f.expiry| == 6 && |f.personal| == 14
  }

  /** The fields of a reference: the two dates are six characters each, dates or fillers. */
  function FieldsFor(referenceHex: Text, commitmentHex: Text, tier: nat, from: Text, expiry: Text): Fields
    requires tier == 1 || tier == 2
  {
    var id := Ascii("ZGL") + referenceHex[..if |referenceHex| < 6 then |referenceHex| else 6];
    var personal := Ascii("T") + [48 + tier] + commitmentHex[..if |commitmentHex| < 12 then |commitmentHex| else 12];
    Fields(Pad(id, 9), from, expiry, Pad(personal, 14))
  }

  /** What is printed of a reference: six characters of its id, its tier and twelve of its commitment. */
  lemma {:induction false} ReferenceFields(referenceHex: Text, commitmentHex: Text, tier: nat, from: Text, expiry: Text)
    requires (tier == 1 || tier == 2) && |referenceHex| >= 6 && |commitmentHex| >= 12
    requires forall i :: 0 <= i < |referenceHex| ==> Printable(referenceHex[i])
    requires forall i :: 0 <= i < |commitmentHex| ==> Printable(commitmentHex[i])
    ensures FieldsFor(referenceHex, commitmentHex, tier, from, expiry)
         == Fields(Ascii("ZGL") + referenceHex[..6], from, expiry,
                   Ascii(if tier == 1 then "T1" else "T2") + commitmentHex[..12])
  {
    var id, personal := Ascii("ZGL") + referenceHex[..6], Ascii("T") + [48 + tier] + commitmentHex[..12];
    assert Ascii(if tier == 1 then "T1" else "T2") == Ascii("T") + [48 + tier];
    assert Pad(id, 9) == id;
    assert Pad(personal, 14) == personal;
  }

  /** A printed line is accepted and gives back the fields it was printed from. */
  lemma {:induction false} BuiltLineReadsBack(f: Fields)
    requires WellSized(f)
    ensures Accepts(BuildLine2(f)) && FieldsOf(BuildLine2(f)) == f
    ensures BuildLine2(f)[10..13] == Ascii("ENS") && BuildLine2(f)[20..21] == Ascii("<")
  {
    hide Weighted;
    var line := BuildLine2(f);
    assert |ISSUING_NAMESPACE| == 3;
    assert line[0..9] == f.docNo && line[13..19] == f.from && line[21..27] == f.expiry && line[28..42] == f.personal;
    assert line[9..10] == [Digit(f.docNo)] && line[19..20] == [Digit(f.from)];
    assert line[27..28] == [Digit(f.expiry)] && line[42..43] == [Digit(f.personal)];
  }

  lemma {:induction false} ReferenceLineAccepted(referenceHex: Text, commitmentHex: Text, tier: nat, from: Text,
      expiry: Text)
    requires (tier == 1 || tier == 2) && |from| == 6 && |expiry| == 6
    ensures var f := FieldsFor(referenceHex, commitmentHex, tier, from, expiry);
      Accepts(BuildLine2(f)) && FieldsOf(BuildLine2(f)) == f
  {
    BuiltLineReadsBack(FieldsFor(referenceHex, commitmentHex, tier, from, expiry));
  }

  /** Conversely an accepted line is the printed form of its own fields, but for the issuer and the
      filler, which no digit covers. */
  lemma {:induction false} AcceptedLineWasBuilt(line: Text)
    requires Accepts(line)
    ensures var built := BuildLine2(FieldsOf(line));
      |built| == 44 && built[..10] == line[..10] && built[13..20] == line[13..20] && built[21..] == line[21..]
  {
    hide Weighted;
    var f := FieldsOf(line);
    assert |ISSUING_NAMESPACE| == 3;
    assert line[0..9] == f.docNo;
    assert line[9..10] == [Digit(f.docNo)] && line[19..20] == [Digit(f.from)];
    assert line[27..28] == [Digit(f.expiry)] && line[42..43] == [Digit(f.personal)];
  }

  /** The standard's worked example: the date 27 July 1952 has the check digit 3. */
  lemma {:induction false} WorkedExample()
    ensures Digit(Ascii("520727")) == Ascii("3")[0]
  {
    var t := Ascii("520727");
    assert Weighted(t, 2) == 5 * 7 + 2 * 3;
    assert Weighted(t, 4) == 41 + 0 * 1 + 7 * 7;
    assert Weighted(t, 6) == 90 + 2 * 3 + 7 * 1;
  }

  // One wrong character

  lemma {:induction false} WeightedUpdate(t: Text, n: nat, p: nat, c: Unit)
    requires n <= |t| && p < |t|
    ensures Weighted(t[p := c], n) as int
         == Weighted(t, n) + if p < n then (CharValue(c) - CharValue(t[p])) * Weight(p) else 0
  {
    if n > 0 {
      WeightedUpdate(t, n - 1, p, c);
    }
  }

  /** Every weight is prime to ten, so a digit changes exactly when a value changes modulo ten. */
  lemma {:induction false} DigitUpdate(t: Text, p: nat, c: Unit)
    requires p < |t|
    ensures Digit(t[p := c]) == Digit(t) <==> CharValue(c) % 10 == CharValue(t[p]) % 10
  {
    hide Weighted, CharValue, Weight;
    WeightedUpdate(t, |t|, p, c);
    PrimeToTen(Weighted(t, |t|), CharValue(c) - CharValue(t[p]), Weight(p));
    Congruent(CharValue(c), CharValue(t[p]));
  }

  lemma {:induction false} Congruent(a: int, b: int)
    ensures (a - b) % 10 == 0 <==> a % 10 == b % 10
  {
  }

  lemma {:induction false} PrimeToTen(s: int, d: int, w: nat)
    requires w in {7, 3, 1}
    ensures (s + d * w) % 10 == s % 10 <==> d % 10 == 0
  {
    Congruent(s + d * w, s);
    var q, r := d / 10, d % 10;
    assert d * w == 10 * (q * w) + r * w;
    Tens(q * w, r * w);
    SmallMultiple(r, w);
  }

  lemma {:induction false} Tens(a: int, b: int)
    ensures (10 * a + b) % 10 == b % 10
  {
  }

  lemma {:induction false} SmallMultiple(r: nat, w: nat)
    requires r < 10 && w in {7, 3, 1}
    ensures (r * w) % 10 == 0 <==> r == 0
  {
    if w == 7 {
      assert r * w == 7 * r;
    } else if w == 3 {
      assert r * w == 3 * r;
    }
  }

  lemma {:induction false} FieldSubstitution(line: Text, start: nat, end: nat, p: nat, c: Unit)
    requires start <= end < |line| && p < |line| && c != line[p] && FieldOk(line, start, end)
    ensures FieldOk(line[p := c], start, end) <==>
              !(start <= p <= end) || (p < end && CharValue(c) % 10 == CharValue(line[p]) % 10)
  {
    hide Weighted;
    var t := line[start..end];
    if start <= p < end {
      assert line[p := c][start..end] == t[p - start := c];
      DigitUpdate(t, p - start, c);
    } else {
      assert line[p := c][start..end] == t;
    }
  }

  /** Positions no check digit covers: the issuer and the filler after the first date. */
  predicate Uncovered(p: nat) { 10 <= p < 13 || p == 20 }

  predicate Data(p: nat) { p < 9 || 13 <= p < 19 || 21 <= p < 27 || 28 <= p < 42 }

  /** Where a covered character stands in the composite. */
  function Place(p: nat): nat
    requires p < 43 && !Uncovered(p)
  {
    if p < 10 then p else if p < 20 then p - 3 else p - 4
  }

  lemma {:induction false} CompositeAt(line: Text, p: nat)
    requires |line| == 44 && p < 43 && !Uncovered(p)
    ensures |Composite(line)| == 39 && Composite(line)[Place(p)] == line[p]
  {
  }

  lemma {:induction false} CompositeUpdate(line: Text, p: nat, c: Unit)
    requires |line| == 44 && p < 44
    ensures |Composite(line)| == 39
    ensures Composite(line[p := c]) == if p < 43
        && !Uncovered(p) then Composite(line)[Place(p) := c] else Composite(line)
  {
    var a, b := Composite(line[p := c]), Composite(line);
    forall q | 0 <= q < 39
      ensures a[q] == if p < 43 && !Uncovered(p) && q == Place(p) then c else b[q]
    {
      var o := if q < 10 then q else if q < 17 then q + 3 else q + 4;
      assert Place(o) == q;
      CompositeAt(line, o);
      CompositeAt(line[p := c], o);
    }
  }

  lemma {:induction false} CompositeSubstitution(line: Text, p: nat, c: Unit)
    requires |line| == 44 && p < 44 && c != line[p] && CompositeOk(line)
    ensures CompositeOk(line[p := c]) <==>
              Uncovered(p) || (p < 43 && CharValue(c) % 10 == CharValue(line[p]) % 10)
  {
    hide Weighted;
    CompositeUpdate(line, p, c);
    if p < 43 && !Uncovered(p) {
      CompositeAt(line, p);
      DigitUpdate(Composite(line), Place(p), c);
    }
  }

  /** Changing one character of an accepted line goes unnoticed exactly when no digit covers it, or
      it is data replaced by a character of equal value modulo ten. */
  lemma {:induction false} SingleErrorExactly(line: Text, p: nat, c: Unit)
    requires Accepts(line) && p < 44 && c != line[p]
    ensures Accepts(line[p := c]) <==> Uncovered(p) || (Data(p) && CharValue(c) % 10 == CharValue(line[p]) % 10)
  {
    hide FieldOk, CompositeOk, CharValue;
    FieldSubstitution(line, 0, 9, p, c);
    FieldSubstitution(line, 13, 19, p, c);
    FieldSubstitution(line, 21, 27, p, c);
    FieldSubstitution(line, 28, 42, p, c);
    CompositeSubstitution(line, p, c);
  }

  // Two characters exchanged

  function Swapped(t: Text, p: nat): Text
    requires p + 1 < |t|
  {
    t[p := t[p + 1]][p + 1 := t[p]]
  }

  lemma {:induction false} WeightedSwap(t: Text, p: nat)
    requires p + 1 < |t|
    ensures Weighted(Swapped(t, p), |t|) as int
         == Weighted(t, |t|) + (CharValue(t[p + 1]) - CharValue(t[p])) * (Weight(p) - Weight(p + 1))
  {
    hide Weighted, CharValue, Weight;
    WeightedUpdate(t, |t|, p, t[p + 1]);
    WeightedUpdate(t[p := t[p + 1]], |t|, p + 1, t[p]);
    SwapSum(CharValue(t[p]), CharValue(t[p + 1]), Weight(p), Weight(p + 1));
  }

  lemma {:induction false} SwapSum(a: int, b: int, v: int, w: int)
    ensures (b - a) * v + (a - b) * w == (b - a) * (v - w)
  {
  }

  /** Neighbouring weights differ by 4, 2 or 6: even, and prime to five. */
  lemma {:induction false} DigitSwap(t: Text, p: nat)
    requires p + 1 < |t|
    ensures Digit(Swapped(t, p)) == Digit(t) <==> (CharValue(t[p]) - CharValue(t[p + 1])) % 5 == 0
  {
    hide Weighted, CharValue;
    WeightedSwap(t, p);
    EvenAndPrimeToFive(Weighted(t, |t|), CharValue(t[p + 1]) - CharValue(t[p]), Weight(p) - Weight(p + 1));
    NegatedMultiple(CharValue(t[p]) - CharValue(t[p + 1]));
  }

  lemma {:induction false} EvenAndPrimeToFive(s: int, d: int, w: int)
    requires w in {4, 2, -6}
    ensures (s + d * w) % 10 == s % 10 <==> d % 5 == 0
  {
    var q, r := d / 5, d % 5;
    if w == 4 {
      assert s + d * w == s + 4 * r + 10 * (2 * q);
    } else if w == 2 {
      assert s + d * w == s + 2 * r + 10 * q;
    } else {
      assert s + d * w == s - 6 * r + 10 * (-3 * q);
    }
    Residue(s, w, r, if w == 4 then 2 * q else if w == 2 then q else -3 * q);
  }

  lemma {:induction false} NegatedMultiple(d: int)
    ensures d % 5 == 0 <==> (-d) % 5 == 0
  {
  }

  lemma {:induction false} Residue(s: int, w: int, r: int, q: int)
    requires w in {4, 2, -6} && 0 <= r < 5
    ensures (s + w * r + 10 * q) % 10 == s % 10 <==> r == 0
  {
    if r == 1 {
    } else if r == 2 {
    } else if r == 3 {
    }
  }

  lemma {:induction false} FieldSwap(line: Text, start: nat, end: nat, p: nat)
    requires start <= end < |line| && p + 1 < |line| && FieldOk(line, start, end)
    requires p + 1 < start || end < p || start <= p < p + 1 < end
    ensures FieldOk(Swapped(line, p), start, end) <==>
              !(start <= p < end) || (CharValue(line[p]) - CharValue(line[p + 1])) % 5 == 0
  {
    hide Weighted;
    var t := line[start..end];
    if start <= p < end {
      assert Swapped(line, p)[start..end] == Swapped(t, p - start);
      DigitSwap(t, p - start);
    } else {
      assert Swapped(line, p)[start..end] == t;
    }
  }

  /** `p` and the position after it lie in one data field. */
  predicate InOneField(p: nat) { p < 8 || 13 <= p < 18 || 21 <= p < 26 || 28 <= p < 41 }

  lemma {:induction false} CompositeSwap(line: Text, p: nat)
    requires |line| == 44 && InOneField(p) && CompositeOk(line)
    ensures CompositeOk(Swapped(line, p)) <==> (CharValue(line[p]) - CharValue(line[p + 1])) % 5 == 0
  {
    hide Weighted;
    CompositeUpdate(line, p, line[p + 1]);
    CompositeUpdate(line[p := line[p + 1]], p + 1, line[p]);
    CompositeAt(line, p);
    CompositeAt(line, p + 1);
    assert Composite(Swapped(line, p)) == Swapped(Composite(line), Place(p));
    DigitSwap(Composite(line), Place(p));
  }

  /** Exchanging two neighbouring characters of one field of an accepted line goes unnoticed exactly
      when their values differ by a multiple of five. */
  lemma {:induction false} TranspositionExactly(line: Text, p: nat)
    requires Accepts(line) && InOneField(p)
    ensures Accepts(Swapped(line, p)) <==> (CharValue(line[p]) - CharValue(line[p + 1])) % 5 == 0
  {
    hide FieldOk, CompositeOk, CharValue;
    FieldSwap(line, 0, 9, p);
    FieldSwap(line, 13, 19, p);
    FieldSwap(line, 21, 27, p);
    FieldSwap(line, 28, 42, p);
    CompositeSwap(line, p);
  }
}
