/** JavaScript values, `JSON.stringify` and `JSON.parse` (RFC 8259).

    `Print` is `JSON.stringify` on values that JSON can hold and `Parse` is `JSON.parse`; the main
    result is that parsing a printed value gives that value back, whatever text follows it. */
module Json {
  import opened Utf
  import opened Numbers

  datatype Member = Member(key: Text, value: Value)

  /** What `typeof` can report: `Opaque` stands for functions and symbols, `NonFinite` for NaN and
      the infinities. An object is the list `Object.entries` gives for it. */
  datatype Value =
    | Undefined
    | Null
    | Bool(b: bool)
    | Num(x: Number)
    | NonFinite
    | BigInt(n: int)
    | Str(s: Text)
    | Arr(items: seq<Value>)
    | Obj(members: seq<Member>)
    | Opaque

  const QUOTE: Unit := 34
  const COMMA: Unit := 44
  const SLASH: Unit := 47
  const COLON: Unit := 58
  const LBRACKET: Unit := 91
  const BACKSLASH: Unit := 92
  const RBRACKET: Unit := 93
  const LBRACE: Unit := 123
  const RBRACE: Unit := 125

  const NULL_TEXT: Text := [110, 117, 108, 108]
  const TRUE_TEXT: Text := [116, 114, 117, 101]
  const FALSE_TEXT: Text := [102, 97, 108, 115, 101]

  ghost predicate DistinctKeys(ms: seq<Member>) {
    forall i, j :: 0 <= i < j < |ms| ==> ms[i].key != ms[j].key
  }

  /** Object keys are distinct at every depth, as in every JavaScript object. */
  ghost predicate Proper(v: Value) {
    match v
    case Arr(items) => forall i :: 0 <= i < |items| ==> Proper(items[i])
    case Obj(ms) => DistinctKeys(ms) && forall i :: 0 <= i < |ms| ==> Proper(ms[i].value)
    case _ => true
  }

  /** Values JSON can hold: no undefined, bigint, function, non-finite number or negative zero. */
  ghost predicate Plain(v: Value) {
    match v
    case Null | Bool(_) | Str(_) => true
    case Num(x) => x != Zero(true)
    case Arr(items) => forall i :: 0 <= i < |items| ==> Plain(items[i])
    case Obj(ms) => DistinctKeys(ms) && forall i :: 0 <= i < |ms| ==> Plain(ms[i].value)
    case _ => false
  }

  // Printing

  function HexDigit(d: nat): Unit
    requires d < 16
  {
    if d < 10 then 48 + d else 87 + d
  }

  function UnicodeEscape(u: Unit): (t: Text)
    ensures |t| == 6
  {
    [BACKSLASH, 117, HexDigit(u / 0x1000), HexDigit(u / 0x100 % 16), HexDigit(u / 16 % 16), HexDigit(u % 16)]
  }

  /** The letter of the two-character escape of `u`, if it has one. */
  function ShortEscape(u: Unit): Option<Unit> {
    if u == 8 then Some(98)
    else if u == 9 then Some(116)
    else if u == 10 then Some(110)
    else if u == 12 then Some(102)
    else if u == 13 then Some(114)
    else if u == QUOTE || u == BACKSLASH then Some(u)
    else None
  }

  function EscapeUnit(u: Unit): (t: Text)
    ensures t != []
  {
    match ShortEscape(u)
    case Some(c) => [BACKSLASH, c]
    case None => if u < 32 || Surrogate(u) then UnicodeEscape(u) else [u]
  }

  /** The inside of a quoted string; a surrogate pair is kept, a lone surrogate is escaped. */
  function Escape(s: Text): Text {
    if s == [] then []
    else if StartsPair(s) then s[..2] + Escape(s[2..])
    else EscapeUnit(s[0]) + Escape(s[1..])
  }

  function Quote(s: Text): Text { [QUOTE] + Escape(s) + [QUOTE] }

  /** `JSON.stringify(v)`, members in their own order. */
  function Print(v: Value): Text {
    match v
    case Bool(b) => if b then TRUE_TEXT else FALSE_TEXT
    case Num(x) => NumberText(x)
    case Str(s) => Quote(s)
    case Arr(items) => [LBRACKET] + PrintItems(items) + [RBRACKET]
    case Obj(ms) => [LBRACE] + PrintMembers(ms) + [RBRACE]
    case _ => NULL_TEXT
  }

  function PrintItems(items: seq<Value>): Text {
    if items == [] then []
    else Print(items[0]) + (if |items| == 1 then [] else [COMMA] + PrintItems(items[1..]))
  }

  function PrintMembers(ms: seq<Member>): Text {
    if ms == [] then []
    else
      Quote(ms[0].key) + [COLON] + Print(ms[0].value)
      + (if |ms| == 1 then [] else [COMMA] + PrintMembers(ms[1..]))
  }

  /** The lengths of the printed elements, and a comma between each two. */
  function ItemsLength(items: seq<Value>): nat {
    if items == [] then 0
    else |Print(items[0])| + (if |items| == 1 then 0 else 1) + ItemsLength(items[1..])
  }

  function MembersLength(ms: seq<Member>): nat {
    if ms == [] then 0
    else
      |Quote(ms[0].key)| + 1 + |Print(ms[0].value)| + (if |ms| == 1 then 0 else 1) + MembersLength(ms[1..])
  }

  /** Nothing is printed between the tokens: brackets, one comma between elements, one colon in a member. */
  lemma {:induction false} PrintCompact(v: Value)
    ensures v.Arr? ==> |Print(v)| == 2 + ItemsLength(v.items)
    ensures v.Obj? ==> |Print(v)| == 2 + MembersLength(v.members)
  {
    match v
    case Arr(items) => ItemsCompact(items);
    case Obj(ms) => MembersCompact(ms);
    case _ =>
  }

  lemma {:induction false} ItemsCompact(items: seq<Value>)
    ensures |PrintItems(items)| == ItemsLength(items)
  {
    hide Print;
    if items != [] {
      ItemsCompact(items[1..]);
    }
  }

  lemma {:induction false} MembersCompact(ms: seq<Member>)
    ensures |PrintMembers(ms)| == MembersLength(ms)
  {
    hide Print, Quote;
    if ms != [] {
      MembersCompact(ms[1..]);
    }
  }

  // Parsing

  predicate Blank(u: Unit) { u == 32 || u == 9 || u == 10 || u == 13 }

  function SkipBlanks(t: Text): (r: Text)
    ensures |r| <= |t| && (r != [] ==> !Blank(r[0]))
  {
    if t != [] && Blank(t[0]) then SkipBlanks(t[1..]) else t
  }

  function HexValue(u: Unit): Option<nat> {
    if 48 <= u <= 57 then Some(u - 48)
    else if 97 <= u <= 102 then Some(u - 87)
    else if 65 <= u <= 70 then Some(u - 55)
    else None
  }

  /** The code unit four hex digits name. */
  function Hex4(t: Text): (r: Option<Unit>)
    requires |t| >= 4
  {
    match (HexValue(t[0]), HexValue(t[1]), HexValue(t[2]), HexValue(t[3]))
    case (Some(a), Some(b), Some(c), Some(d)) =>
      if a < 16 && b < 16 && c < 16 && d < 16 then Some(a * 0x1000 + b * 0x100 + c * 16 + d) else None
    case _ => None
  }

  function ShortUnescape(u: Unit): Option<Unit> {
    if u == 98 then Some(8)
    else if u == 116 then Some(9)
    else if u == 110 then Some(10)
    else if u == 102 then Some(12)
    else if u == 114 then Some(13)
    else if u == QUOTE || u == BACKSLASH || u == SLASH then Some(u)
    else None
  }

  /** One unit of a string body and what follows it. */
  function UnescapeUnit(t: Text): (r: Option<(Unit, Text)>)
    requires t != []
    ensures r.Some? ==> |r.value.1| < |t|
  {
    if t[0] < 32 then None
    else if t[0] != BACKSLASH then Some((t[0], t[1..]))
    else if |t| < 2 then None
    else if t[1] == 117 then
      if |t| < 6 then None
      else match Hex4(t[2..])
        case None => None
        case Some(u) => Some((u, t[6..]))
    else match ShortUnescape(t[1])
      case None => None
      case Some(u) => Some((u, t[2..]))
  }

  /** A string body up to its closing quote. */
  function Unescape(t: Text): (r: Option<(Text, Text)>)
    ensures r.Some? ==> |r.value.1| < |t|
    decreases |t|
  {
    if t == [] then None
    else if t[0] == QUOTE then Some(([], t[1..]))
    else match UnescapeUnit(t)
      case None => None
      case Some((u, rest)) =>
        match Unescape(rest)
        case None => None
        case Some((s, end)) => Some(([u] + s, end))
  }

  /** `t` begins with `word`. */
  function ParseWord(t: Text): (r: Option<(Value, Text)>)
    ensures r.Some? ==> |r.value.1| < |t|
  {
    if NULL_TEXT <= t then Some((Null, t[4..]))
    else if TRUE_TEXT <= t then Some((Bool(true), t[4..]))
    else if FALSE_TEXT <= t then Some((Bool(false), t[5..]))
    else None
  }

  function NumValue(r: Option<(Number, Text)>): Option<(Value, Text)> {
    match r
    case None => None
    case Some((x, rest)) => Some((Num(x), rest))
  }

  /** What follows an opening quote. */
  function ParseString(t: Text): (r: Option<(Value, Text)>)
    ensures r.Some? ==> |r.value.1| < |t|
  {
    match Unescape(t)
    case None => None
    case Some((s, rest)) => Some((Str(s), rest))
  }

  function ParseValue(t: Text): (r: Option<(Value, Text)>)
    ensures r.Some? ==> |r.value.1| < |t|
    decreases |t|, 0
  {
    var s := SkipBlanks(t);
    if s == [] then None
    else if s[0] == QUOTE then ParseString(s[1..])
    else if s[0] == LBRACKET then ParseArray(s[1..])
    else if s[0] == LBRACE then ParseObject(s[1..])
    else if s[0] == MINUS || Digit(s[0]) then NumValue(ParseNumber(s))
    else ParseWord(s)
  }

  /** What follows `[`. */
  function ParseArray(t: Text): (r: Option<(Value, Text)>)
    ensures r.Some? ==> |r.value.1| < |t|
    decreases |t|, 2
  {
    var s := SkipBlanks(t);
    if s != [] && s[0] == RBRACKET then Some((Arr([]), s[1..]))
    else match ParseItems(t)
      case None => None
      case Some((items, rest)) => Some((Arr(items), rest))
  }

  function ParseItems(t: Text): (r: Option<(seq<Value>, Text)>)
    ensures r.Some? ==> |r.value.1| < |t|
    decreases |t|, 1
  {
    match ParseValue(t)
    case None => None
    case Some((v, more)) =>
      var s := SkipBlanks(more);
      if s == [] then None
      else if s[0] == RBRACKET then Some(([v], s[1..]))
      else if s[0] == COMMA then
        match ParseItems(s[1..])
        case None => None
        case Some((items, rest)) => Some(([v] + items, rest))
      else None
  }

  /** What follows `{`. */
  function ParseObject(t: Text): (r: Option<(Value, Text)>)
    ensures r.Some? ==> |r.value.1| < |t|
    decreases |t|, 2
  {
    var s := SkipBlanks(t);
    if s != [] && s[0] == RBRACE then Some((Obj([]), s[1..]))
    else match ParseMembers(t)
      case None => None
      case Some((ms, rest)) => Some((Obj(Collapse([], ms)), rest))
  }

  /** A member name and its colon. */
  function ParseKey(t: Text): (r: Option<(Text, Text)>)
    ensures r.Some? ==> |r.value.1| < |t|
  {
    var s := SkipBlanks(t);
    if s == [] || s[0] != QUOTE then None
    else match Unescape(s[1..])
      case None => None
      case Some((key, more)) =>
        var u := SkipBlanks(more);
        if u != [] && u[0] == COLON then Some((key, u[1..])) else None
  }

  function ParseMembers(t: Text): (r: Option<(seq<Member>, Text)>)
    ensures r.Some? ==> |r.value.1| < |t|
    decreases |t|, 1
  {
    match ParseKey(t)
    case None => None
    case Some((key, body)) =>
      match ParseValue(body)
      case None => None
      case Some((v, more)) =>
        var s := SkipBlanks(more);
        if s == [] then None
        else if s[0] == RBRACE then Some(([Member(key, v)], s[1..]))
        else if s[0] == COMMA then
          match ParseMembers(s[1..])
          case None => None
          case Some((ms, rest)) => Some(([Member(key, v)] + ms, rest))
        else None
  }

  /** Sets a property: a repeated name keeps its place and takes the later value. */
  function Upsert(ms: seq<Member>, m: Member): seq<Member> {
    if ms == [] then [m]
    else if ms[0].key == m.key then [m] + ms[1..]
    else [ms[0]] + Upsert(ms[1..], m)
  }

  function Collapse(done: seq<Member>, ms: seq<Member>): seq<Member>
    decreases |ms|
  {
    if ms == [] then done else Collapse(Upsert(done, ms[0]), ms[1..])
  }

  /** `JSON.parse`; `None` is a `SyntaxError`. */
  function Parse(t: Text): Option<Value> {
    match ParseValue(t)
    case None => None
    case Some((v, rest)) => if SkipBlanks(rest) == [] then Some(v) else None
  }

  // Round trip

  lemma {:induction false} HexValueDigit(d: nat)
    requires d < 16
    ensures HexValue(HexDigit(d)) == Some(d)
  {
  }

  lemma {:induction false} Hex4Digits(u: Unit, t: Text)
    requires |t| >= 4 && t[0] == HexDigit(u / 0x1000) && t[1] == HexDigit(u / 0x100 % 16)
    requires t[2] == HexDigit(u / 16 % 16) && t[3] == HexDigit(u % 16)
    ensures Hex4(t) == Some(u)
  {
    HexValueDigit(u / 0x1000);
    HexValueDigit(u / 0x100 % 16);
    HexValueDigit(u / 16 % 16);
    HexValueDigit(u % 16);
    hide HexDigit, HexValue;
    FourDigits(u, u / 0x1000, u / 0x100 % 16, u / 16 % 16, u % 16);
  }

  lemma {:induction false} FourDigits(u: Unit, a: nat, b: nat, c: nat, d: nat)
    requires a == u / 0x1000 && b == u / 0x100 % 16 && c == u / 16 % 16 && d == u % 16
    ensures a < 16 && b < 16 && c < 16 && d < 16 && u == a * 0x1000 + b * 0x100 + c * 16 + d
  {
    assert u / 16 == u / 0x100 * 16 + c;
    assert u / 0x100 == a * 16 + b;
  }

  /** A unit stands for itself in a string unless it is a control, a quote, a backslash or a lone
      surrogate; seven have a two-letter escape, and the rest four lower-case hex digits. */
  lemma {:induction false} EscapedExactly(u: Unit)
    ensures EscapeUnit(u) == [u] <==> u >= 32 && u != 34 && u != 92 && !(0xD800 <= u < 0xE000)
    ensures u in {8, 9, 10, 12, 13, 34, 92} ==>
      EscapeUnit(u) == Ascii(if u == 8 then "\\b" else if u == 9 then "\\t" else if u == 10 then "\\n"
                             else if u == 12 then "\\f" else if u == 13 then "\\r"
                             else if u == 34 then "\\\"" else "\\\\")
    ensures EscapeUnit(u) != [u] && u !in {8, 9, 10, 12, 13, 34, 92} ==>
      && |EscapeUnit(u)| == 6 && EscapeUnit(u)[..2] == Ascii("\\u") && Hex4(EscapeUnit(u)[2..]) == Some(u)
      && forall i :: 2 <= i < 6 ==> 48 <= EscapeUnit(u)[i] <= 57 || 97 <= EscapeUnit(u)[i] <= 102
  {
    var e := EscapeUnit(u);
    if |e| == 6 {
      Hex4Digits(u, e[2..]);
      hide Hex4;
    }
  }

  lemma {:induction false} UnescapeUnitEscaped(u: Unit, rest: Text)
    ensures UnescapeUnit(EscapeUnit(u) + rest) == Some((u, rest))
    ensures EscapeUnit(u)[0] != QUOTE
  {
    var e := EscapeUnit(u);
    var t := e + rest;
    if ShortEscape(u).Some? {
      assert t[2..] == rest;
    } else if u < 32 || Surrogate(u) {
      Hex4Digits(u, t[2..]);
      assert t[6..] == rest;
      hide Hex4, HexDigit;
    } else {
      assert t[1..] == rest;
    }
  }

  lemma {:induction false} EscapeSplit(s: Text)
    requires s != []
    ensures StartsPair(s) ==> |s| >= 2 && Surrogate(s[0]) && Surrogate(s[1]) && Escape(s) == s[..2] + Escape(s[2..])
    ensures !StartsPair(s) ==> Escape(s) == EscapeUnit(s[0]) + Escape(s[1..])
  {
    hide EscapeUnit;
  }

  lemma {:induction false} FrontPair(s: Text, e: Text, rest: Text)
    requires |s| >= 2
    ensures s[..2] + e + rest == [s[0]] + ([s[1]] + (e + rest))
  {
  }

  lemma {:induction false} FrontUnit(u: Text, e: Text, rest: Text)
    ensures u + e + rest == u + (e + rest)
  {
  }

  lemma {:induction false} UnescapePair(s: Text, after: Text)
    requires |s| >= 2 && Surrogate(s[0]) && Surrogate(s[1]) && Unescape(after).Some?
    ensures Unescape([s[0]] + ([s[1]] + after)) == Some((s[..2] + Unescape(after).value.0, Unescape(after).value.1))
  {
    hide Unescape;
    UnescapePlain(s[1], after);
    UnescapePlain(s[0], [s[1]] + after);
    FrontPair(s, Unescape(after).value.0, []);
    assert Unescape(after).value.0 + [] == Unescape(after).value.0;
    assert s[..2] + Unescape(after).value.0 + [] == s[..2] + Unescape(after).value.0;
  }

  /** What the string continues with after its first unit or pair. */
  lemma {:induction false} UnescapeStep(s: Text, rest: Text)
    requires s != []
    ensures var n := if StartsPair(s) then 2 else 1; var after := Escape(s[n..]) + rest;
      Unescape(after).Some? ==>
        Unescape(Escape(s) + rest) == Some((s[..n] + Unescape(after).value.0, Unescape(after).value.1))
  {
    hide Escape, EscapeUnit, Unescape, UnescapeUnit, StartsPair, Surrogate;
    EscapeSplit(s);
    if StartsPair(s) {
      var after := Escape(s[2..]) + rest;
      FrontPair(s, Escape(s[2..]), rest);
      if Unescape(after).Some? {
        UnescapePair(s, after);
      }
    } else {
      FrontUnit(EscapeUnit(s[0]), Escape(s[1..]), rest);
      UnescapeOne(s[0], Escape(s[1..]) + rest);
      assert s[..1] == [s[0]];
    }
  }

  lemma {:induction false} UnescapeOne(u: Unit, after: Text)
    ensures Unescape(after).Some? ==>
      Unescape(EscapeUnit(u) + after) == Some(([u] + Unescape(after).value.0, Unescape(after).value.1))
  {
    UnescapeUnitEscaped(u, after);
    hide EscapeUnit, UnescapeUnit;
  }

  /** Unescaping stops at the closing quote with the string that was escaped. */
  lemma {:induction false} UnescapeToQuote(s: Text, tail: Text)
    requires tail != [] && tail[0] == QUOTE
    ensures Unescape(Escape(s) + tail) == Some((s, tail[1..]))
    decreases |s|
  {
    if s == [] {
      assert Escape(s) + tail == tail;
    } else {
      hide Escape, Unescape, StartsPair;
      var n := if StartsPair(s) then 2 else 1;
      PairHasTwo(s);
      UnescapeToQuote(s[n..], tail);
      UnescapeStep(s, tail);
      assert s == s[..n] + s[n..];
    }
  }

  lemma {:induction false} UnescapeEscaped(s: Text, rest: Text)
    ensures Unescape(Escape(s) + [QUOTE] + rest) == Some((s, rest))
  {
    hide Escape, Unescape;
    UnescapeToQuote(s, [QUOTE] + rest);
    assert Escape(s) + [QUOTE] + rest == Escape(s) + ([QUOTE] + rest);
    assert ([QUOTE] + rest)[1..] == rest;
  }

  lemma {:induction false} PairHasTwo(s: Text)
    ensures StartsPair(s) ==> |s| >= 2
  {
  }

  lemma {:induction false} UnescapePlain(u: Unit, after: Text)
    requires Surrogate(u) && Unescape(after).Some?
    ensures Unescape([u] + after) == Some(([u] + Unescape(after).value.0, Unescape(after).value.1))
  {
    assert ([u] + after)[1..] == after;
  }

  lemma {:induction false} ParseQuoted(s: Text, rest: Text)
    ensures ParseValue(Quote(s) + rest) == Some((Str(s), rest))
  {
    var t := Quote(s) + rest;
    assert t[1..] == Escape(s) + [QUOTE] + rest;
    UnescapeEscaped(s, rest);
  }

  lemma {:induction false} ParseQuotedKey(k: Text, rest: Text)
    ensures ParseKey(Quote(k) + [COLON] + rest) == Some((k, rest))
  {
    var t := Quote(k) + [COLON] + rest;
    assert t[1..] == Escape(k) + [QUOTE] + ([COLON] + rest);
    UnescapeEscaped(k, [COLON] + rest);
    assert ([COLON] + rest)[1..] == rest;
  }

  /** A printed value starts with a unit that is neither blank nor a closing bracket. */
  lemma {:induction false} PrintStarts(v: Value)
    ensures Print(v) != [] && !Blank(Print(v)[0]) && Print(v)[0] !in {RBRACKET, RBRACE, COMMA}
  {
    if v.Num? {
      NumberTextShape(v.x);
    }
  }

  lemma {:induction false} DispatchNumber(t: Text)
    requires t != [] && (t[0] == MINUS || Digit(t[0]))
    ensures ParseValue(t) == NumValue(ParseNumber(t))
  {
    assert SkipBlanks(t) == t;
  }

  lemma {:induction false} DispatchArray(t: Text)
    requires t != [] && !Blank(t[0]) && t[0] != RBRACKET && ParseItems(t).Some?
    ensures ParseValue([LBRACKET] + t) == Some((Arr(ParseItems(t).value.0), ParseItems(t).value.1))
  {
    assert ([LBRACKET] + t)[1..] == t;
    assert SkipBlanks(t) == t;
  }

  lemma {:induction false} DispatchObject(t: Text)
    requires t != [] && t[0] == QUOTE && ParseMembers(t).Some? && DistinctKeys(ParseMembers(t).value.0)
    ensures ParseValue([LBRACE] + t) == Some((Obj(ParseMembers(t).value.0), ParseMembers(t).value.1))
  {
    hide ParseMembers, ParseItems;
    assert ([LBRACE] + t)[1..] == t;
    assert SkipBlanks(t) == t;
    var ms := ParseMembers(t).value.0;
    assert [] + ms == ms;
    CollapseDistinct([], ms);
  }

  lemma {:induction false} DispatchEmpty(rest: Text)
    ensures ParseValue([LBRACKET, RBRACKET] + rest) == Some((Arr([]), rest))
    ensures ParseValue([LBRACE, RBRACE] + rest) == Some((Obj([]), rest))
  {
    assert ([LBRACKET, RBRACKET] + rest)[1..] == [RBRACKET] + rest;
    assert ([LBRACE, RBRACE] + rest)[1..] == [RBRACE] + rest;
    assert ([RBRACKET] + rest)[1..] == rest && ([RBRACE] + rest)[1..] == rest;
  }

  lemma {:induction false} DispatchWord(rest: Text)
    ensures ParseValue(NULL_TEXT + rest) == Some((Null, rest))
    ensures ParseValue(TRUE_TEXT + rest) == Some((Bool(true), rest))
    ensures ParseValue(FALSE_TEXT + rest) == Some((Bool(false), rest))
  {
    assert (NULL_TEXT + rest)[4..] == rest;
    assert (TRUE_TEXT + rest)[4..] == rest;
    assert (FALSE_TEXT + rest)[5..] == rest;
  }

  lemma {:induction false} ItemsStep(t: Text, v: Value, next: Text, last: bool)
    requires ParseValue(t) == Some((v, [if last then RBRACKET else COMMA] + next))
    requires !last ==> ParseItems(next).Some?
    ensures ParseItems(t) ==
            if last then Some(([v], next)) else Some(([v] + ParseItems(next).value.0, ParseItems(next).value.1))
  {
    var more := [if last then RBRACKET else COMMA] + next;
    assert SkipBlanks(more) == more && more[1..] == next;
  }

  lemma {:induction false} MembersStep(t: Text, key: Text, body: Text, v: Value, next: Text, last: bool)
    requires ParseKey(t) == Some((key, body))
    requires ParseValue(body) == Some((v, [if last then RBRACE else COMMA] + next))
    requires !last ==> ParseMembers(next).Some?
    ensures ParseMembers(t) ==
            if last then Some(([Member(key, v)], next))
            else Some(([Member(key, v)] + ParseMembers(next).value.0, ParseMembers(next).value.1))
  {
    var more := [if last then RBRACE else COMMA] + next;
    assert SkipBlanks(more) == more && more[1..] == next;
  }

  lemma {:induction false} ParseNum(x: Number, rest: Text)
    requires NumberEnds(rest) && x != Zero(true)
    ensures ParseValue(NumberText(x) + rest) == Some((Num(x), rest))
  {
    NumberTextShape(x);
    ParseNumberText(x, rest);
    DispatchNumber(NumberText(x) + rest);
  }

  /** Parsing a printed value gives the value back and leaves the rest of the text alone. */
  lemma {:induction false} ParsePrinted(v: Value, rest: Text)
    requires Plain(v) && NumberEnds(rest)
    ensures ParseValue(Print(v) + rest) == Some((v, rest))
    decreases v, 1
  {
    hide ParseValue, PrintItems, PrintMembers, NumberEnds;
    match v
    case Null => DispatchWord(rest);
    case Bool(_) => DispatchWord(rest);
    case Num(x) => ParseNum(x, rest);
    case Str(s) => ParseQuoted(s, rest);
    case Arr(items) => ParsePrintedArray(items, rest);
    case Obj(ms) => ParsePrintedObject(ms, rest);
  }

  lemma {:induction false} ParsePrintedArray(items: seq<Value>, rest: Text)
    requires forall i :: 0 <= i < |items| ==> Plain(items[i])
    ensures ParseValue([LBRACKET] + PrintItems(items) + [RBRACKET] + rest) == Some((Arr(items), rest))
    decreases items, 1
  {
    var t := PrintItems(items) + [RBRACKET] + rest;
    assert [LBRACKET] + PrintItems(items) + [RBRACKET] + rest == [LBRACKET] + t;
    if items == [] {
      assert [LBRACKET] + t == [LBRACKET, RBRACKET] + rest;
      DispatchEmpty(rest);
    } else {
      PrintStarts(items[0]);
      hide ParseValue, ParseItems, Print, Plain;
      ParsePrintedItems(items, rest);
      DispatchArray(t);
    }
  }

  lemma {:induction false} ParsePrintedObject(ms: seq<Member>, rest: Text)
    requires DistinctKeys(ms) && forall i :: 0 <= i < |ms| ==> Plain(ms[i].value)
    ensures ParseValue([LBRACE] + PrintMembers(ms) + [RBRACE] + rest) == Some((Obj(ms), rest))
    decreases ms, 1
  {
    var t := PrintMembers(ms) + [RBRACE] + rest;
    assert [LBRACE] + PrintMembers(ms) + [RBRACE] + rest == [LBRACE] + t;
    if ms == [] {
      assert [LBRACE] + t == [LBRACE, RBRACE] + rest;
      DispatchEmpty(rest);
    } else {
      hide ParseValue, ParseMembers, Print, Plain;
      ParsePrintedMembers(ms, rest);
      DispatchObject(t);
    }
  }

  /** What follows the first element of a non-empty array. */
  function AfterItem(items: seq<Value>, rest: Text): Text
    requires items != []
  {
    if |items| == 1 then rest else PrintItems(items[1..]) + [RBRACKET] + rest
  }

  lemma {:induction false} PrintItemsSplit(items: seq<Value>, rest: Text)
    requires items != []
    ensures PrintItems(items) + [RBRACKET] + rest
         == Print(items[0]) + ([if |items| == 1 then RBRACKET else COMMA] + AfterItem(items, rest))
  {
    hide Print;
    RegroupItems(Print(items[0]), if |items| == 1 then [] else PrintItems(items[1..]), rest);
  }

  lemma {:induction false} RegroupItems(head: Text, more: Text, rest: Text)
    ensures head + [] + [RBRACKET] + rest == head + ([RBRACKET] + rest)
    ensures head + ([COMMA] + more) + [RBRACKET] + rest == head + ([COMMA] + (more + [RBRACKET] + rest))
  {
  }

  lemma {:induction false} ParsePrintedItems(items: seq<Value>, rest: Text)
    requires items != [] && forall i :: 0 <= i < |items| ==> Plain(items[i])
    ensures ParseItems(PrintItems(items) + [RBRACKET] + rest) == Some((items, rest))
    decreases items, 0
  {
    hide PrintItems, ParseItems, Print, ParseValue, Plain;
    var t, last, next := PrintItems(items) + [RBRACKET] + rest, |items| == 1, AfterItem(items, rest);
    var more := [if last then RBRACKET else COMMA] + next;
    PrintItemsSplit(items, rest);
    ParsePrinted(items[0], more);
    if last {
      assert items == [items[0]];
    } else {
      ParsePrintedItems(items[1..], rest);
    }
    ItemsStep(t, items[0], next, last);
    assert items == [items[0]] + items[1..];
  }

  /** What follows the first member of a non-empty object. */
  function AfterMember(ms: seq<Member>, rest: Text): Text
    requires ms != []
  {
    if |ms| == 1 then rest else PrintMembers(ms[1..]) + [RBRACE] + rest
  }

  lemma {:induction false} PrintMembersSplit(ms: seq<Member>, rest: Text)
    requires ms != []
    ensures PrintMembers(ms) + [RBRACE] + rest
         == Quote(ms[0].key) + [COLON]
            + (Print(ms[0].value) + ([if |ms| == 1 then RBRACE else COMMA] + AfterMember(ms, rest)))
  {
    var more := if |ms| == 1 then [] else PrintMembers(ms[1..]);
    Regroup(Quote(ms[0].key), Print(ms[0].value), more, rest);
  }

  lemma {:induction false} Regroup(key: Text, value: Text, more: Text, rest: Text)
    ensures key + [COLON] + value + [] + [RBRACE] + rest == key + [COLON] + (value + ([RBRACE] + rest))
    ensures key + [COLON] + value + ([COMMA] + more) + [RBRACE] + rest
         == key + [COLON] + (value + ([COMMA] + (more + [RBRACE] + rest)))
  {
  }

  lemma {:induction false} ParsePrintedMembers(ms: seq<Member>, rest: Text)
    requires ms != [] && forall i :: 0 <= i < |ms| ==> Plain(ms[i].value)
    ensures ParseMembers(PrintMembers(ms) + [RBRACE] + rest) == Some((ms, rest))
    decreases ms, 0
  {
    hide PrintMembers, ParseMembers, Print, ParseValue, Plain, Quote, ParseKey;
    var m, last, next := ms[0], |ms| == 1, AfterMember(ms, rest);
    var more := [if last then RBRACE else COMMA] + next;
    PrintMembersSplit(ms, rest);
    ParseQuotedKey(m.key, Print(m.value) + more);
    ParsePrinted(m.value, more);
    if last {
      assert ms == [m];
    } else {
      ParsePrintedMembers(ms[1..], rest);
    }
    MembersStep(PrintMembers(ms) + [RBRACE] + rest, m.key, Print(m.value) + more, m.value, next, last);
    assert ms == [Member(m.key, m.value)] + ms[1..];
  }

  lemma {:induction false} UpsertFresh(ms: seq<Member>, m: Member)
    requires forall i :: 0 <= i < |ms| ==> ms[i].key != m.key
    ensures Upsert(ms, m) == ms + [m]
  {
    if ms != [] {
      UpsertFresh(ms[1..], m);
      assert ms == [ms[0]] + ms[1..];
    }
  }

  lemma {:induction false} CollapseDistinct(done: seq<Member>, ms: seq<Member>)
    requires DistinctKeys(done + ms)
    ensures Collapse(done, ms) == done + ms
    decreases |ms|
  {
    if ms == [] {
      assert done + ms == done;
    } else {
      forall i | 0 <= i < |done|
        ensures done[i].key != ms[0].key
      {
        assert (done + ms)[i] == done[i] && (done + ms)[|done|] == ms[0];
      }
      UpsertFresh(done, ms[0]);
      assert done + [ms[0]] + ms[1..] == done + ms;
      CollapseDistinct(done + [ms[0]], ms[1..]);
    }
  }

  /** `JSON.parse(JSON.stringify(v))` is `v`. */
  lemma {:induction false} ParsePrint(v: Value)
    requires Plain(v)
    ensures Parse(Print(v)) == Some(v)
  {
    ParsePrinted(v, []);
    assert Print(v) + [] == Print(v);
  }

  /** Printed JSON is well-formed UTF-16, whatever strings it carries, and has no control units. */
  ghost predicate Clean(t: Text) {
    WellFormed(t) && forall u :: u in t ==> u >= 32
  }

  lemma {:induction false} CleanConcat(a: Text, b: Text)
    requires Clean(a) && Clean(b)
    ensures Clean(a + b)
  {
    WellFormedConcat(a, b);
  }

  lemma {:induction false} PlainClean(t: Text)
    requires forall u :: u in t ==> u >= 32 && !Surrogate(u)
    ensures Clean(t)
  {
    PlainWellFormed(t);
  }

  lemma {:induction false} EscapeClean(s: Text)
    ensures Clean(Escape(s))
    decreases |s|
  {
    if s == [] {
    } else if StartsPair(s) {
      EscapeClean(s[2..]);
      assert s[..2][2..] == [];
      CleanConcat(s[..2], Escape(s[2..]));
    } else {
      EscapeClean(s[1..]);
      PlainClean(EscapeUnit(s[0]));
      CleanConcat(EscapeUnit(s[0]), Escape(s[1..]));
    }
  }

  lemma {:induction false} QuoteClean(s: Text)
    ensures Clean(Quote(s))
  {
    EscapeClean(s);
    PlainClean([QUOTE]);
    CleanConcat([QUOTE], Escape(s));
    CleanConcat([QUOTE] + Escape(s), [QUOTE]);
  }

  /** `JSON.stringify` output survives UTF-8 and holds no line break. */
  lemma {:induction false} PrintClean(v: Value)
    ensures Clean(Print(v))
    decreases v, 1
  {
    match v
    case Num(x) =>
      NumberTextShape(x);
      PlainClean(NumberText(x));
    case Str(s) => QuoteClean(s);
    case Arr(items) =>
      PrintItemsClean(items);
      Bracketed(LBRACKET, PrintItems(items), RBRACKET);
    case Obj(ms) =>
      PrintMembersClean(ms);
      Bracketed(LBRACE, PrintMembers(ms), RBRACE);
    case _ => PlainClean(Print(v));
  }

  lemma {:induction false} Bracketed(open: Unit, t: Text, close: Unit)
    requires Clean(t) && 32 <= open < 128 && 32 <= close < 128
    ensures Clean([open] + t + [close])
  {
    PlainClean([open]);
    PlainClean([close]);
    CleanConcat([open], t);
    CleanConcat([open] + t, [close]);
  }

  lemma {:induction false} PrintItemsClean(items: seq<Value>)
    ensures Clean(PrintItems(items))
    decreases items, 0
  {
    if items != [] {
      PrintClean(items[0]);
      PrintItemsClean(items[1..]);
      PlainClean([COMMA]);
      CleanConcat([COMMA], PrintItems(items[1..]));
      CleanConcat(Print(items[0]), if |items| == 1 then [] else [COMMA] + PrintItems(items[1..]));
    }
  }

  lemma {:induction false} PrintMembersClean(ms: seq<Member>)
    ensures Clean(PrintMembers(ms))
    decreases ms, 0
  {
    if ms != [] {
      var m := ms[0];
      QuoteClean(m.key);
      PrintClean(m.value);
      PrintMembersClean(ms[1..]);
      Joined(Quote(m.key), Print(m.value), if |ms| == 1 then [] else [COMMA] + PrintMembers(ms[1..]),
          PrintMembers(ms[1..]));
    }
  }

  lemma {:induction false} Joined(key: Text, value: Text, tail: Text, more: Text)
    requires Clean(key) && Clean(value) && Clean(more) && (tail == [] || tail == [COMMA] + more)
    ensures Clean(key + [COLON] + value + tail)
  {
    PlainClean([COLON]);
    PlainClean([COMMA]);
    CleanConcat([COMMA], more);
    CleanConcat(key, [COLON]);
    CleanConcat(key + [COLON], value);
    CleanConcat(key + [COLON] + value, tail);
  }

  /** Whatever `JSON.parse` returns: a JSON value, where a zero may still be negative. */
  ghost predicate JsonValue(v: Value) {
    match v
    case Null | Bool(_) | Str(_) | Num(_) => true
    case Arr(items) => forall i :: 0 <= i < |items| ==> JsonValue(items[i])
    case Obj(ms) => DistinctKeys(ms) && forall i :: 0 <= i < |ms| ==> JsonValue(ms[i].value)
    case _ => false
  }

  lemma {:induction false} UpsertKeys(ms: seq<Member>, m: Member)
    requires DistinctKeys(ms)
    ensures DistinctKeys(Upsert(ms, m))
    ensures forall x :: x in Upsert(ms, m) ==> x == m || x in ms
  {
    if ms != [] && ms[0].key != m.key {
      assert DistinctKeys(ms[1..]);
      UpsertKeys(ms[1..], m);
      var r := Upsert(ms[1..], m);
      forall i | 0 <= i < |r|
        ensures r[i].key != ms[0].key
      {
        assert r[i] in r;
        assert r[i] == m || r[i] in ms[1..];
      }
    }
  }

  lemma {:induction false} CollapseKeys(done: seq<Member>, ms: seq<Member>)
    requires DistinctKeys(done)
    ensures DistinctKeys(Collapse(done, ms))
    ensures forall x :: x in Collapse(done, ms) ==> x in done || x in ms
    decreases |ms|
  {
    if ms != [] {
      UpsertKeys(done, ms[0]);
      CollapseKeys(Upsert(done, ms[0]), ms[1..]);
    }
  }

  lemma {:induction false} ParsedValue(t: Text)
    ensures ParseValue(t).Some? ==> JsonValue(ParseValue(t).value.0)
    decreases |t|, 0
  {
    var s := SkipBlanks(t);
    if s != [] && s[0] == LBRACKET {
      ParsedArray(s[1..]);
    } else if s != [] && s[0] == LBRACE {
      ParsedObject(s[1..]);
    }
  }

  lemma {:induction false} ParsedArray(t: Text)
    ensures ParseArray(t).Some? ==> JsonValue(ParseArray(t).value.0)
    decreases |t|, 2
  {
    ParsedItems(t);
  }

  lemma {:induction false} ParsedItems(t: Text)
    ensures ParseItems(t).Some? ==> JsonValue(Arr(ParseItems(t).value.0))
    decreases |t|, 1
  {
    ParsedValue(t);
    if ParseValue(t).Some? {
      var s := SkipBlanks(ParseValue(t).value.1);
      if s != [] && s[0] == COMMA {
        ParsedItems(s[1..]);
      }
    }
  }

  ghost predicate JsonMembers(ms: seq<Member>) {
    forall m :: m in ms ==> JsonValue(m.value)
  }

  lemma {:induction false} ParsedObject(t: Text)
    ensures ParseObject(t).Some? ==> JsonValue(ParseObject(t).value.0)
    decreases |t|, 2
  {
    ParsedMembers(t);
    if ParseMembers(t).Some? {
      var ms := ParseMembers(t).value.0;
      CollapseKeys([], ms);
      forall i | 0 <= i < |Collapse([], ms)|
        ensures JsonValue(Collapse([], ms)[i].value)
      {
        assert Collapse([], ms)[i] in ms;
      }
    }
  }

  lemma {:induction false} ParsedMembers(t: Text)
    ensures ParseMembers(t).Some? ==> JsonMembers(ParseMembers(t).value.0)
    decreases |t|, 1
  {
    if ParseKey(t).Some? {
      var body := ParseKey(t).value.1;
      ParsedValue(body);
      if ParseValue(body).Some? {
        var s := SkipBlanks(ParseValue(body).value.1);
        if s != [] && s[0] == COMMA {
          ParsedMembers(s[1..]);
        }
      }
    }
  }

  /** `JSON.parse` only builds JSON values, and never an object with a repeated key. */
  lemma {:induction false} ParseJson(t: Text)
    ensures Parse(t).Some? ==> JsonValue(Parse(t).value)
  {
    ParsedValue(t);
  }
}
