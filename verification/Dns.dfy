/** The DNS wire-name decoder (gateway/src/dns.ts): the uncompressed form of section 3.1 of RFC 1035,
    with labels decoded as UTF-8. */
module Dns {
  import opened Utf

  const MAX_LABEL_LENGTH := 63
  const DOT: Unit := 46

  datatype Error = NotTerminated | LabelTooLong | Truncated | NotUtf8 | TrailingBytes

  datatype Result<T> = Ok(value: T) | Err(error: Error)

  /** `new TextDecoder('utf-8', { fatal: true }).decode`: a leading byte order mark goes. */
  function LabelText(l: Bytes): Option<Text> {
    match DecodeScalars(l)
    case None => None
    case Some(s) => Some(FromScalars(StripBom(s)))
  }

  /** Labels joined by dots. */
  function Dotted(texts: seq<Text>): Text {
    if texts == [] then []
    else if |texts| == 1 then texts[0]
    else texts[0] + [DOT] + Dotted(texts[1..])
  }

  /** The labels of a wire name from `offset` on, checked in the order of the bytes. */
  function Labels(b: Bytes, offset: nat): Result<seq<Bytes>>
    requires offset <= |b|
    decreases |b| - offset
  {
    if offset == |b| then Err(NotTerminated)
    else
      var n := b[offset];
      if n == 0 then if offset + 1 == |b| then Ok([]) else Err(TrailingBytes)
      else if n > MAX_LABEL_LENGTH then Err(LabelTooLong)
      else if offset + 1 + n > |b| then Err(Truncated)
      else if LabelText(b[offset + 1..offset + 1 + n]).None? then Err(NotUtf8)
      else
        match Labels(b, offset + 1 + n)
        case Err(e) => Err(e)
        case Ok(rest) => Ok([b[offset + 1..offset + 1 + n]] + rest)
  }

  predicate ValidLabel(l: Bytes) { 1 <= |l| <= 63 && LabelText(l).Some? }

  predicate AllValid(ls: seq<Bytes>) { forall i :: 0 <= i < |ls| ==> ValidLabel(ls[i]) }

  function Texts(ls: seq<Bytes>): (r: seq<Text>)
    requires AllValid(ls)
    ensures |r| == |ls| && forall i :: 0 <= i < |r| ==> r[i] == LabelText(ls[i]).value
  {
    seq(|ls|, i requires 0 <= i < |ls| => LabelText(ls[i]).value)
  }

  lemma {:induction false} LabelsValid(b: Bytes, offset: nat)
    requires offset <= |b| && Labels(b, offset).Ok?
    ensures AllValid(Labels(b, offset).value)
    decreases |b| - offset
  {
    hide LabelText;
    if b[offset] != 0 {
      LabelsValid(b, offset + 1 + b[offset]);
    }
  }

  /** The name a byte string decodes to. */
  function Name(b: Bytes): Result<Text> {
    match Labels(b, 0)
    case Err(e) => Err(e)
    case Ok(ls) => LabelsValid(b, 0); Ok(Dotted(Texts(ls)))
  }

  lemma {:induction false} TextsConcat(a: seq<Bytes>, b: seq<Bytes>)
    requires AllValid(a) && AllValid(b)
    ensures AllValid(a + b) && Texts(a + b) == Texts(a) + Texts(b)
  {
    hide LabelText;
    assert |Texts(a + b)| == |Texts(a) + Texts(b)|;
    forall i | 0 <= i < |a + b|
      ensures Texts(a + b)[i] == (Texts(a) + Texts(b))[i]
    {
    }
  }

  /** Labels already read, in front of what is still to come. */
  function Prepend(done: seq<Bytes>, r: Result<seq<Bytes>>): Result<seq<Bytes>> {
    match r
    case Err(e) => Err(e)
    case Ok(ls) => Ok(done + ls)
  }

  /** One more label read. */
  lemma {:induction false} ReadOn(b: Bytes, offset: nat, done: seq<Bytes>, l: Bytes)
    requires ValidLabel(l) && AllValid(done) && offset + 1 + |l| <= |b|
    requires b[offset] == |l| && b[offset + 1..offset + 1 + |l|] == l
    ensures Prepend(done, Labels(b, offset)) == Prepend(done + [l], Labels(b, offset + 1 + |l|))
    ensures AllValid(done + [l]) && Texts(done + [l]) == Texts(done) + [LabelText(l).value]
  {
    hide LabelText;
    var next := Labels(b, offset + 1 + |l|);
    assert next.Ok? ==> done + ([l] + next.value) == (done + [l]) + next.value;
    TextsConcat(done, [l]);
    assert Texts([l]) == [LabelText(l).value];
  }

  /** `decodeDnsName`: terminates on every input. */
  method DecodeDnsName(b: Bytes) returns (name: Result<Text>)
    ensures name == Name(b)
  {
    hide LabelText, Texts, Dotted;
    var labels: seq<Text> := [];
    ghost var done: seq<Bytes> := [];
    var offset := 0;
    assert Labels(b, 0).Ok? ==> [] + Labels(b, 0).value == Labels(b, 0).value;
    while true
      invariant offset <= |b| && AllValid(done) && labels == Texts(done)
      invariant Labels(b, 0) == Prepend(done, Labels(b, offset))
      decreases |b| - offset
    {
      if offset == |b| {
        return Err(NotTerminated);
      }
      var length := b[offset];
      if length == 0 {
        offset := offset + 1;
        break;
      }
      if length > MAX_LABEL_LENGTH {
        return Err(LabelTooLong);
      }
      if offset + 1 + length > |b| {
        return Err(Truncated);
      }
      var bytes := b[offset + 1..offset + 1 + length];
      var text := LabelText(bytes);
      if text.None? {
        return Err(NotUtf8);
      }
      ReadOn(b, offset, done, bytes);
      labels := labels + [text.value];
      done := done + [bytes];
      offset := offset + 1 + length;
    }
    if offset != |b| {
      return Err(TrailingBytes);
    }
    assert done + [] == done;
    name := Ok(Dotted(labels));
  }

  // The wire form

  function Wire(ls: seq<Bytes>): Bytes
    requires AllValid(ls)
  {
    if ls == [] then [0] else [|ls[0]|] + ls[0] + Wire(ls[1..])
  }

  lemma {:induction false} OneMoreLabel(b: Bytes, offset: nat, l: Bytes)
    requires ValidLabel(l) && offset + 1 + |l| <= |b|
    requires b[offset] == |l| && b[offset + 1..offset + 1 + |l|] == l && Labels(b, offset + 1 + |l|).Ok?
    ensures Labels(b, offset) == Ok([l] + Labels(b, offset + 1 + |l|).value)
  {
    hide LabelText;
  }

  lemma {:induction false} RootLabel(before: Bytes)
    ensures Labels(before + [0], |before|) == Ok([])
  {
  }

  lemma {:induction false} LabelsWire(ls: seq<Bytes>, before: Bytes)
    requires AllValid(ls)
    ensures Labels(before + Wire(ls), |before|) == Ok(ls)
    decreases |ls|
  {
    if ls == [] {
      RootLabel(before);
    } else {
      hide Labels, Wire, ValidLabel, AllValid;
      FirstValid(ls);
      WireSplit(ls, before);
      LabelsWire(ls[1..], before + ([|ls[0]|] + ls[0]));
      LabelInFront(before, ls[0], Wire(ls[1..]));
      ConsLabel(ls);
    }
  }

  lemma {:induction false} LabelInFront(before: Bytes, l: Bytes, rest: Bytes)
    requires ValidLabel(l)
    requires var now := before + ([|l|] + l); Labels(now + rest, |now|).Ok?
    ensures var now := before + ([|l|] + l);
      Labels(now + rest, |before|) == Ok([l] + Labels(now + rest, |now|).value)
  {
    hide Labels, LabelText;
    PlacedLabel(before, l, rest);
    OneMoreLabel(before + ([|l|] + l) + rest, |before|, l);
  }

  lemma {:induction false} FirstValid(ls: seq<Bytes>)
    requires AllValid(ls) && ls != []
    ensures ValidLabel(ls[0]) && AllValid(ls[1..]) && |ls[0]| <= MAX_LABEL_LENGTH
  {
  }

  lemma {:induction false} ConsLabel(ls: seq<Bytes>)
    requires ls != []
    ensures [ls[0]] + ls[1..] == ls
  {
  }

  lemma {:induction false} WireSplit(ls: seq<Bytes>, before: Bytes)
    requires AllValid(ls) && ls != []
    ensures before + Wire(ls) == before + ([|ls[0]|] + ls[0]) + Wire(ls[1..])
  {
    hide LabelText;
  }

  lemma {:induction false} PlacedLabel(before: Bytes, l: Bytes, rest: Bytes)
    requires |l| <= MAX_LABEL_LENGTH
    ensures var b := before + ([|l|] + l) + rest;
      |before + ([|l|] + l)| == |before| + 1 + |l| && b[|before|] == |l| && b[|before| + 1..|before| + 1 + |l|] == l
  {
  }

  lemma {:induction false} WireLabels(b: Bytes, offset: nat)
    requires offset <= |b| && Labels(b, offset).Ok?
    ensures AllValid(Labels(b, offset).value) && Wire(Labels(b, offset).value) == b[offset..]
    decreases |b| - offset
  {
    hide LabelText;
    LabelsValid(b, offset);
    if b[offset] != 0 {
      var n := b[offset];
      WireLabels(b, offset + 1 + n);
      var ls, rest := Labels(b, offset).value, Labels(b, offset + 1 + n).value;
      assert ls[0] == b[offset + 1..offset + 1 + n] && ls[1..] == rest;
      assert b[offset..] == [n] + b[offset + 1..offset + 1 + n] + b[offset + 1 + n..];
    }
  }

  /** The decoder succeeds exactly on the wire form of a list of labels of 1 to 63 bytes of valid
      UTF-8, and then gives the dotted name of that list; there is one such list. */
  lemma {:induction false} DecodesExactlyWireForms(b: Bytes)
    ensures Name(b).Ok? <==> exists ls :: AllValid(ls) && b == Wire(ls)
    ensures forall ls :: AllValid(ls) && b == Wire(ls) ==> Labels(b, 0) == Ok(ls) && Name(b) == Ok(Dotted(Texts(ls)))
  {
    if Labels(b, 0).Ok? {
      WireLabels(b, 0);
      var ls := Labels(b, 0).value;
      assert AllValid(ls) && b == Wire(ls);
    }
    forall ls | AllValid(ls) && b == Wire(ls)
      ensures Labels(b, 0) == Ok(ls)
    {
      LabelsWire(ls, []);
      assert [] + Wire(ls) == b;
    }
  }

  // What else happens

  /** Labels as they stand in a wire name, without the root. */
  function Front(ls: seq<Bytes>): Bytes
    requires AllValid(ls)
  {
    if ls == [] then [] else [|ls[0]|] + ls[0] + Front(ls[1..])
  }

  predicate NoText(l: Bytes) { DecodeScalars(l).None? }

  /** What is wrong with the rest of a name after its last good label. */
  predicate Faulty(rest: Bytes, e: Error) {
    match e
    case NotTerminated => rest == []
    case TrailingBytes => |rest| > 1 && rest[0] == 0
    case LabelTooLong => rest != [] && rest[0] > 63
    case Truncated => rest != [] && 1 <= rest[0] <= 63 && |rest| <= rest[0]
    case NotUtf8 => rest != [] && 1 <= rest[0] <= 63 && |rest| > rest[0] && NoText(rest[1..1 + rest[0]])
  }

  lemma {:induction false} NoLabelText(l: Bytes)
    ensures LabelText(l).None? <==> NoText(l)
  {
  }

  lemma {:induction false} FaultStops(b: Bytes, offset: nat, e: Error)
    requires offset <= |b| && Faulty(b[offset..], e)
    ensures Labels(b, offset) == Err(e)
  {
    hide LabelText, NoText;
    if offset < |b| {
      var n, rest := b[offset], b[offset..];
      assert n == rest[0];
      if 0 < n <= 63 && offset + 1 + n <= |b| {
        assert b[offset + 1..offset + 1 + n] == rest[1..1 + n];
        NoLabelText(rest[1..1 + n]);
      }
    }
  }

  lemma {:induction false} FrontSplit(ls: seq<Bytes>, before: Bytes, rest: Bytes)
    requires AllValid(ls) && ls != []
    ensures var now := before + ([|ls[0]|] + ls[0]);
      before + Front(ls) + rest == now + Front(ls[1..]) + rest == now + (Front(ls[1..]) + rest)
  {
    hide LabelText;
  }

  lemma {:induction false} ErrorInFront(before: Bytes, l: Bytes, rest: Bytes)
    requires ValidLabel(l)
    requires var now := before + ([|l|] + l); Labels(now + rest, |now|).Err?
    ensures var now := before + ([|l|] + l); Labels(now + rest, |before|) == Labels(now + rest, |now|)
  {
    hide Labels, LabelText;
    PlacedLabel(before, l, rest);
    OneMoreError(before + ([|l|] + l) + rest, |before|, l);
  }

  lemma {:induction false} OneMoreError(b: Bytes, offset: nat, l: Bytes)
    requires ValidLabel(l) && offset + 1 + |l| <= |b|
    requires b[offset] == |l| && b[offset + 1..offset + 1 + |l|] == l && Labels(b, offset + 1 + |l|).Err?
    ensures Labels(b, offset) == Labels(b, offset + 1 + |l|)
  {
    hide LabelText;
  }

  lemma {:induction false} FaultAfter(ls: seq<Bytes>, before: Bytes, rest: Bytes, e: Error)
    requires AllValid(ls) && Faulty(rest, e)
    ensures Labels(before + Front(ls) + rest, |before|) == Err(e)
    decreases |ls|
  {
    hide Labels, ValidLabel, AllValid, Faulty, NoText, LabelText;
    if ls == [] {
      assert (before + Front(ls) + rest)[|before|..] == rest;
      FaultStops(before + Front(ls) + rest, |before|, e);
    } else {
      hide Front;
      FirstValid(ls);
      FrontSplit(ls, before, rest);
      FaultAfter(ls[1..], before + ([|ls[0]|] + ls[0]), rest, e);
      ErrorInFront(before, ls[0], Front(ls[1..]) + rest);
    }
  }

  lemma {:induction false} FaultHere(b: Bytes, offset: nat)
    requires offset <= |b| && Labels(b, offset).Err?
    requires var n := if offset < |b| then b[offset] else 0;
      0 < n <= 63 && offset + 1 + n <= |b| ==> LabelText(b[offset + 1..offset + 1 + n]).None?
    ensures Faulty(b[offset..], Labels(b, offset).error)
  {
    hide LabelText, NoText;
    if offset < |b| {
      var n, rest := b[offset], b[offset..];
      assert n == rest[0];
      if 0 < n <= 63 && offset + 1 + n <= |b| {
        assert b[offset + 1..offset + 1 + n] == rest[1..1 + n];
        NoLabelText(rest[1..1 + n]);
      }
    }
  }

  lemma {:induction false} FrontCons(l: Bytes, ls: seq<Bytes>)
    requires ValidLabel(l) && AllValid(ls)
    ensures AllValid([l] + ls) && Front([l] + ls) == [|l|] + l + Front(ls)
  {
    hide LabelText;
    assert ([l] + ls)[1..] == ls;
  }

  lemma {:induction false} FaultFound(b: Bytes, offset: nat) returns (ls: seq<Bytes>, rest: Bytes)
    requires offset <= |b| && Labels(b, offset).Err?
    ensures AllValid(ls) && b[offset..] == Front(ls) + rest && Faulty(rest, Labels(b, offset).error)
    decreases |b| - offset
  {
    hide LabelText, NoText, Faulty;
    var n := if offset < |b| then b[offset] else 0;
    if 0 < n <= 63 && offset + 1 + n <= |b| && LabelText(b[offset + 1..offset + 1 + n]).Some? {
      var l, more := b[offset + 1..offset + 1 + n], offset + 1 + n;
      OneMoreError(b, offset, l);
      hide Labels, Front, AllValid;
      ls, rest := FaultFound(b, more);
      FrontCons(l, ls);
      assert b[offset..] == [n] + l + b[more..];
      assert [n] + l + (Front(ls) + rest) == [n] + l + Front(ls) + rest;
      ls := [l] + ls;
    } else {
      FaultHere(b, offset);
      ls, rest := [], b[offset..];
    }
  }

  /** The decoder fails exactly when some valid labels are followed by what its error says: nothing, bytes
      after the root, a label above 63 bytes, too few bytes for a label, or a label that is no UTF-8. */
  lemma {:induction false} FailsExactly(b: Bytes, e: Error)
    ensures Name(b) == Err(e) <==> exists ls, rest :: AllValid(ls) && b == Front(ls) + rest && Faulty(rest, e)
  {
    hide Faulty, AllValid, Front, NoText, LabelText;
    if Labels(b, 0) == Err(e) {
      var ls, rest := FaultFound(b, 0);
      assert b[0..] == b;
    }
    if ls, rest :| AllValid(ls) && b == Front(ls) + rest && Faulty(rest, e) {
      FaultAfter(ls, [], rest, e);
      assert [] + Front(ls) + rest == b;
    }
  }

  // Encoding and decoding names

  /** A label as a client encodes it. */
  ghost predicate Encodable(t: Text) {
    WellFormed(t) && 1 <= |Utf8Encode(t)| <= MAX_LABEL_LENGTH && t[0] != BOM
  }

  function EncodeLabels(texts: seq<Text>): (r: seq<Bytes>)
    ensures |r| == |texts| && forall i :: 0 <= i < |r| ==> r[i] == Utf8Encode(texts[i])
  {
    seq(|texts|, i requires 0 <= i < |texts| => Utf8Encode(texts[i]))
  }

  lemma {:induction false} EncodedLabel(t: Text)
    requires Encodable(t)
    ensures ValidLabel(Utf8Encode(t)) && LabelText(Utf8Encode(t)) == Some(t)
  {
    DecodeEncoded(Scalars(t));
    ScalarsLossless(t);
    assert Scalars(t)[0] != BOM;
  }

  /** The decoder inverts the encoder on every list of labels that UTF-8 and the wire form can carry. */
  lemma {:induction false} DecodeInvertsEncode(texts: seq<Text>)
    requires forall i :: 0 <= i < |texts| ==> Encodable(texts[i])
    ensures AllValid(EncodeLabels(texts)) && Name(Wire(EncodeLabels(texts))) == Ok(Dotted(texts))
  {
    var ls := EncodeLabels(texts);
    forall i | 0 <= i < |texts|
      ensures ValidLabel(ls[i]) && LabelText(ls[i]) == Some(texts[i])
    {
      EncodedLabel(texts[i]);
    }
    assert Texts(ls) == texts;
    DecodesExactlyWireForms(Wire(ls));
  }

  // When two inputs give one name

  predicate Dotless(texts: seq<Text>) { forall i :: 0 <= i < |texts| ==> DOT !in texts[i] }

  lemma {:induction false} CutAtDot(a: Text, x: Text, b: Text, y: Text)
    requires DOT !in a && DOT !in b && a + [DOT] + x == b + [DOT] + y
    ensures a == b && x == y
  {
    var s := a + [DOT] + x;
    assert s[|a|] == DOT && s[|b|] == DOT;
    assert forall i :: 0 <= i < |a| ==> s[i] == a[i] && a[i] != DOT;
    assert forall i :: 0 <= i < |b| ==> s[i] == b[i] && b[i] != DOT;
    assert a == s[..|a|] && b == s[..|b|];
    assert x == s[|a| + 1..] && y == s[|b| + 1..];
  }

  /** Dots separate: label lists without dots are told apart by their names, except that no label at
      all and one empty label both give the empty name. */
  lemma {:induction false} DottedInjective(s: seq<Text>, t: seq<Text>)
    requires Dotless(s) && Dotless(t) && Dotted(s) == Dotted(t)
    ensures s == t || (s == [] && t == [[]]) || (s == [[]] && t == [])
    decreases |s|
  {
    assert |s| >= 2 ==> Dotted(s)[|s[0]|] == DOT;
    assert |t| >= 2 ==> Dotted(t)[|t[0]|] == DOT;
    if |s| >= 2 && |t| >= 2 {
      CutAtDot(s[0], Dotted(s[1..]), t[0], Dotted(t[1..]));
      DottedInjective(s[1..], t[1..]);
      TwoLabels(s, t);
    }
  }

  lemma {:induction false} TwoLabels(s: seq<Text>, t: seq<Text>)
    requires |s| >= 2 && |t| >= 2 && s[0] == t[0] && s[1..] == t[1..]
    ensures s == t
  {
    assert s == [s[0]] + s[1..] && t == [t[0]] + t[1..];
  }

  /** A label without the byte order mark it may start with. */
  function Unmarked(l: Bytes): Bytes {
    if |l| >= 3 && l[0] == 0xEF && l[1] == 0xBB && l[2] == 0xBF then l[3..] else l
  }

  lemma {:induction false} MarkedScalars(l: Bytes)
    requires DecodeScalars(l).Some?
    ensures EncodeScalars(StripBom(DecodeScalars(l).value)) == Unmarked(l)
  {
    var s := DecodeScalars(l).value;
    EncodeDecoded(l);
    if s != [] {
      assert l == EncodeScalar(s[0]) + EncodeScalars(s[1..]);
      MarkBytes(s[0], l);
    }
  }

  lemma {:induction false} MarkBytes(c: Scalar, l: Bytes)
    requires EncodeScalar(c) <= l
    ensures c == BOM <==> |l| >= 3 && l[0] == 0xEF && l[1] == 0xBB && l[2] == 0xBF
    ensures c == BOM ==> |EncodeScalar(c)| == 3
  {
    var e := EncodeScalar(c);
    assert forall i :: 0 <= i < |e| ==> e[i] == l[i];
    if |l| >= 3 && l[0] == 0xEF && l[1] == 0xBB && l[2] == 0xBF {
      assert |e| == 3;
    }
  }

  /** Two labels read the same exactly when they differ at most by a leading byte order mark. */
  lemma {:induction false} SameTextExactly(l: Bytes, m: Bytes)
    requires ValidLabel(l) && ValidLabel(m)
    ensures LabelText(l) == LabelText(m) <==> Unmarked(l) == Unmarked(m)
  {
    var s, t := StripBom(DecodeScalars(l).value), StripBom(DecodeScalars(m).value);
    MarkedScalars(l);
    MarkedScalars(m);
    FromScalarsWellFormed(s);
    FromScalarsWellFormed(t);
    DecodeEncoded(s);
    DecodeEncoded(t);
  }

  ghost predicate SameUnmarked(ls: seq<Bytes>, ms: seq<Bytes>) {
    |ls| == |ms| && forall i :: 0 <= i < |ls| ==> Unmarked(ls[i]) == Unmarked(ms[i])
  }

  /** The root name, or a single label that is nothing but a byte order mark. */
  predicate Blank(ls: seq<Bytes>) { ls == [] || ls == [[0xEF, 0xBB, 0xBF]] }

  lemma {:induction false} BlankText(l: Bytes)
    requires ValidLabel(l)
    ensures LabelText(l) == Some([]) <==> l == [0xEF, 0xBB, 0xBF]
  {
    var s := StripBom(DecodeScalars(l).value);
    MarkedScalars(l);
    FromScalarsWellFormed(s);
    assert Scalars([]) == [] && EncodeScalars([]) == [];
    assert Unmarked(l) == [] ==> |l| == 3 && l == [l[0], l[1], l[2]];
    DecodeEncoded(s);
  }

  /** Exactly when two inputs whose labels hold no dot give one name: their labels agree but for
      leading byte order marks, or both names are empty. */
  lemma {:induction false} SameNameExactly(ls: seq<Bytes>, ms: seq<Bytes>)
    requires AllValid(ls) && AllValid(ms) && Dotless(Texts(ls)) && Dotless(Texts(ms))
    ensures Name(Wire(ls)) == Name(Wire(ms)) <==> SameUnmarked(ls, ms) || (Blank(ls) && Blank(ms))
  {
    DecodesExactlyWireForms(Wire(ls));
    DecodesExactlyWireForms(Wire(ms));
    var s, t := Texts(ls), Texts(ms);
    if |ls| == |ms| {
      SameTexts(ls, ms);
    }
    BlankTexts(ls);
    BlankTexts(ms);
    if Name(Wire(ls)) == Name(Wire(ms)) {
      DottedInjective(s, t);
    }
  }

  lemma {:induction false} SameTexts(ls: seq<Bytes>, ms: seq<Bytes>)
    requires AllValid(ls) && AllValid(ms) && |ls| == |ms|
    ensures Texts(ls) == Texts(ms) <==> SameUnmarked(ls, ms)
  {
    var s, t := Texts(ls), Texts(ms);
    forall i | 0 <= i < |ls|
      ensures s[i] == t[i] <==> Unmarked(ls[i]) == Unmarked(ms[i])
    {
      SameTextExactly(ls[i], ms[i]);
    }
    assert s == t <==> forall i :: 0 <= i < |ls| ==> s[i] == t[i];
  }

  lemma {:induction false} BlankTexts(ls: seq<Bytes>)
    requires AllValid(ls)
    ensures Blank(ls) <==> Texts(ls) == [] || Texts(ls) == [[]]
  {
    if |ls| == 1 {
      BlankText(ls[0]);
      assert ls == [ls[0]];
    }
  }

  /** Without dots and byte order marks inside labels, the name determines the input. */
  lemma {:induction false} NamesDetermineInputs(a: Bytes, b: Bytes, ls: seq<Bytes>, ms: seq<Bytes>)
    requires AllValid(ls) && AllValid(ms) && a == Wire(ls) && b == Wire(ms)
    requires Dotless(Texts(ls)) && Dotless(Texts(ms))
    requires forall i :: 0 <= i < |ls| ==> Unmarked(ls[i]) == ls[i]
    requires forall i :: 0 <= i < |ms| ==> Unmarked(ms[i]) == ms[i]
    ensures Name(a) == Name(b) <==> a == b
  {
    hide Name, Wire, LabelText, Texts, AllValid, Dotless, Blank, SameUnmarked, Unmarked;
    SameNameExactly(ls, ms);
    SameUnmarkedSame(ls, ms);
    BlankUnmarked(ls);
    BlankUnmarked(ms);
  }

  lemma {:induction false} BlankUnmarked(ls: seq<Bytes>)
    requires forall i :: 0 <= i < |ls| ==> Unmarked(ls[i]) == ls[i]
    ensures Blank(ls) ==> ls == []
  {
    if |ls| == 1 {
      assert Unmarked(ls[0]) == ls[0];
    }
  }

  lemma {:induction false} SameUnmarkedSame(ls: seq<Bytes>, ms: seq<Bytes>)
    requires forall i :: 0 <= i < |ls| ==> Unmarked(ls[i]) == ls[i]
    requires forall i :: 0 <= i < |ms| ==> Unmarked(ms[i]) == ms[i]
    ensures SameUnmarked(ls, ms) ==> ls == ms
  {
    hide Unmarked;
  }

  /** Labels without dots are not enough: a byte order mark in front of a label disappears, so
      `a` and its marked spelling are one name, and so are the root and a lone mark. */
  lemma {:induction false} MarksDisappear()
    ensures Name([1, 97, 0]) == Name([4, 0xEF, 0xBB, 0xBF, 97, 0]) == Ok([97])
    ensures Name([0]) == Name([3, 0xEF, 0xBB, 0xBF, 0]) == Ok([])
  {
    var n := [0xEF, 0xBB, 0xBF];
    MarkedLabel([97], [97]);
    MarkedLabel([], []);
    OneLabel([97]);
    OneLabel(n + [97]);
    OneLabel(n + []);
    assert [1] + [97] + [0] == [1, 97, 0] && [4] + (n + [97]) + [0] == [4, 0xEF, 0xBB, 0xBF, 97, 0];
    assert [3] + (n + []) + [0] == [3, 0xEF, 0xBB, 0xBF, 0];
    assert Wire([]) == [0];
    DecodesExactlyWireForms([0]);
  }

  lemma {:induction false} MarkedLabel(s: seq<Scalar>, l: Bytes)
    requires s == l && (s == [] || s == [97])
    ensures LabelText([0xEF, 0xBB, 0xBF] + l) == Some(s)
    ensures l != [] ==> LabelText(l) == Some(s)
  {
    assert EncodeScalar(BOM) == [0xEF, 0xBB, 0xBF];
    assert EncodeScalars([]) == [] && FromScalars([]) == [];
    assert EncodeScalars([97]) == [97] && FromScalars([97]) == [97];
    assert ([BOM] + s)[1..] == s;
    DecodeEncoded([BOM] + s);
    DecodeEncoded(s);
  }

  /** Two labels and the dot between them. */
  lemma {:induction false} WorkedExample()
    ensures Name([1, 97, 1, 98, 0]) == Ok(Ascii("a.b"))
  {
    var ls := [[97], [98]];
    LetterLabel(97);
    LetterLabel(98);
    assert ls[1..] == [[98]] && [[98]][1..] == [];
    assert Wire(ls) == [1, 97, 1, 98, 0];
    DecodesExactlyWireForms(Wire(ls));
    hide LabelText, Dotted;
    assert Texts(ls) == [[97], [98]];
    DotBetween();
  }

  lemma {:induction false} DotBetween()
    ensures Dotted([[97], [98]]) == Ascii("a.b")
  {
    assert [[97], [98]][1..] == [[98]];
    assert Dotted([[98]]) == [98];
    assert Dotted([[97], [98]]) == [97, 46, 98] == Ascii("a.b");
  }

  lemma {:induction false} LetterLabel(c: Scalar)
    requires c == 97 || c == 98
    ensures LabelText([c]) == Some([c])
  {
    assert EncodeScalars([]) == [] && FromScalars([]) == [];
    assert EncodeScalars([c]) == [c];
    assert [c][1..] == [] && FromScalars([c]) == [c] + [];
    DecodeEncoded([c]);
  }

  lemma {:induction false} OneLabel(l: Bytes)
    requires ValidLabel(l)
    ensures Name([|l|] + l + [0]) == Ok(LabelText(l).value)
  {
    assert [l][1..] == [] && Wire([l]) == [|l|] + l + [0];
    DecodesExactlyWireForms(Wire([l]));
    assert Texts([l]) == [LabelText(l).value];
  }
}
