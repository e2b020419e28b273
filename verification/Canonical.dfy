/** The canonical encoder behind every digest (packages/sdk/src/canonical.ts).

    Main results: the encoder is total exactly on `Encodable` values, its text parses back to the
    normal form of the value, and two values share their text exactly when they are `Equivalent`. */
module Canonical {
  import opened Utf
  import opened Numbers
  import opened Json
  import Sorting

  predicate KeyLess(a: Text, b: Text) {
    b != [] && (a == [] || a[0] < b[0] || (a[0] == b[0] && KeyLess(a[1..], b[1..])))
  }

  function Defined(ms: seq<Member>): (r: seq<Member>)
    ensures forall m :: m in r <==> m in ms && m.value != Undefined
  {
    if ms == [] then []
    else if ms[0].value == Undefined then Defined(ms[1..])
    else [ms[0]] + Defined(ms[1..])
  }

  /** The entries the encoder prints: defined members, by key in code unit order. */
  function Entries(ms: seq<Member>): (r: seq<Member>)
    ensures forall m :: m in r <==> m in ms && m.value != Undefined
  {
    Sorting.SortElements(ByKey, Defined(ms));
    Sorting.Sort(ByKey, Defined(ms))
  }

  predicate ByKey(m: Member, n: Member) { KeyLess(m.key, n.key) }

  ghost predicate Below(ms: seq<Member>, v: Value) {
    forall i :: 0 <= i < |ms| ==> ms[i].value < v
  }

  lemma {:induction false} EntriesBelow(ms: seq<Member>)
    ensures Below(Entries(ms), Obj(ms))
  {
    forall i | 0 <= i < |Entries(ms)|
      ensures Entries(ms)[i].value < Obj(ms)
    {
      assert Entries(ms)[i] in ms;
    }
  }

  /** A bigint in decimal. */
  function IntText(n: int): Text {
    if n < 0 then [MINUS] + Dec(-n) else Dec(n)
  }

  /** A bigint prints as its sign and the digits of its magnitude. */
  lemma {:induction false} IntTextValue(n: int)
    ensures n >= 0 ==> Digits(IntText(n)) && NatOf(IntText(n)) == n
    ensures n < 0 ==> IntText(n)[0] == 45 && Digits(IntText(n)[1..]) && NatOf(IntText(n)[1..]) == -n
  {
    NatOfDec(if n < 0 then -n else n);
    if n < 0 {
      assert IntText(n)[1..] == Dec(-n);
    }
  }

  /** `encode`; `None` is a thrown `TypeError`. */
  function Encode(v: Value): Option<Text>
    decreases v, 1, 0
  {
    match v
    case Null => Some(NULL_TEXT)
    case Bool(b) => Some(if b then TRUE_TEXT else FALSE_TEXT)
    case Num(x) => Some(NumberText(x))
    case Str(s) => Some(Quote(s))
    case BigInt(n) => Some(Quote(IntText(n)))
    case Arr(items) => Wrap(LBRACKET, EncodeItems(items), RBRACKET)
    case Obj(ms) =>
      EntriesBelow(ms);
      Wrap(LBRACE, EncodeEntries(v, Entries(ms)), RBRACE)
    case Undefined | NonFinite | Opaque => None
  }

  function Wrap(open: Unit, inner: Option<Text>, close: Unit): Option<Text> {
    match inner
    case None => None
    case Some(t) => Some([open] + t + [close])
  }

  /** `head` followed by a comma and `tail`, unless `head` is the last. */
  function Join(head: Option<Text>, tail: Option<Text>, last: bool): Option<Text> {
    match (head, tail)
    case (Some(a), Some(b)) => Some(a + (if last then [] else [COMMA] + b))
    case _ => None
  }

  /** An undefined slot of an array is encoded as null. */
  function Slot(v: Value): Value { if v == Undefined then Null else v }

  function EncodeItems(items: seq<Value>): Option<Text>
    decreases items, 0, 0
  {
    if items == [] then Some([])
    else
      var head := if items[0] == Undefined then Some(NULL_TEXT) else Encode(items[0]);
      Join(head, EncodeItems(items[1..]), |items| == 1)
  }

  function EncodeEntries(v: Value, ms: seq<Member>): Option<Text>
    requires Below(ms, v)
    decreases v, 0, |ms|
  {
    if ms == [] then Some([])
    else
      var head := match Encode(ms[0].value)
        case None => None
        case Some(t) => Some(Quote(ms[0].key) + [COLON] + t);
      Join(head, EncodeEntries(v, ms[1..]), |ms| == 1)
  }

  /** What the encoder accepts. */
  ghost predicate Encodable(v: Value) {
    match v
    case Undefined | NonFinite | Opaque => false
    case Arr(items) => forall i :: 0 <= i < |items| ==> items[i] == Undefined || Encodable(items[i])
    case Obj(ms) => forall i :: 0 <= i < |ms| ==> ms[i].value == Undefined || Encodable(ms[i].value)
    case _ => true
  }

  /** The JSON value a JavaScript value stands for. */
  function Norm(v: Value): Value
    decreases v, 1, 0
  {
    match v
    case Num(x) => Num(Unsigned(x))
    case BigInt(n) => Str(IntText(n))
    case Arr(items) => Arr(NormItems(items))
    case Obj(ms) => EntriesBelow(ms); Obj(NormEntries(v, Entries(ms)))
    case _ => v
  }

  function NormItems(items: seq<Value>): (r: seq<Value>)
    ensures |r| == |items|
    ensures forall i :: 0 <= i < |r| ==> r[i] == if items[i] == Undefined then Null else Norm(items[i])
    decreases items, 0, 0
  {
    if items == [] then []
    else [if items[0] == Undefined then Null else Norm(items[0])] + NormItems(items[1..])
  }

  function NormEntries(v: Value, ms: seq<Member>): (r: seq<Member>)
    requires Below(ms, v)
    ensures |r| == |ms|
    ensures forall i :: 0 <= i < |r| ==> r[i] == Member(ms[i].key, Norm(ms[i].value))
    decreases v, 0, |ms|
  {
    if ms == [] then []
    else [Member(ms[0].key, Norm(ms[0].value))] + NormEntries(v, ms[1..])
  }

  // Key order

  lemma {:induction false} KeyLessTotal(a: Text, b: Text)
    ensures KeyLess(a, b) || KeyLess(b, a) || a == b
    ensures !(KeyLess(a, b) && KeyLess(b, a))
    ensures !KeyLess(a, a)
    decreases |a|
  {
    if a != [] && b != [] && a[0] == b[0] {
      KeyLessTotal(a[1..], b[1..]);
      assert a == [a[0]] + a[1..] && b == [b[0]] + b[1..];
    }
    if a != [] {
      KeyLessTotal(a[1..], a[1..]);
    }
  }

  lemma {:induction false} KeyLessTransitive(a: Text, b: Text, c: Text)
    requires KeyLess(a, b) && KeyLess(b, c)
    ensures KeyLess(a, c)
    decreases |a|
  {
    if a != [] && a[0] == b[0] == c[0] {
      KeyLessTransitive(a[1..], b[1..], c[1..]);
    }
  }

  lemma {:induction false} ByKeyStrict()
    ensures Sorting.StrictOrder(ByKey)
  {
    forall x: Member, y: Member
      ensures ByKey(x, y) ==> !ByKey(y, x)
    {
      KeyLessTotal(x.key, y.key);
    }
    forall x: Member, y: Member, z: Member
      ensures ByKey(x, y) && ByKey(y, z) ==> ByKey(x, z)
      ensures ByKey(x, y) ==> ByKey(x, z) || ByKey(z, y)
    {
      KeyLessTotal(x.key, z.key);
      KeyLessTotal(z.key, y.key);
      if KeyLess(x.key, y.key) && KeyLess(y.key, z.key) {
        KeyLessTransitive(x.key, y.key, z.key);
      }
    }
  }

  lemma {:induction false} DefinedDistinct(ms: seq<Member>)
    requires DistinctKeys(ms)
    ensures DistinctKeys(Defined(ms))
  {
    if ms != [] {
      assert DistinctKeys(ms[1..]);
      DefinedDistinct(ms[1..]);
      var d := Defined(ms);
      forall i, j | 0 <= i < j < |d|
        ensures d[i].key != d[j].key
      {
        if ms[0].value != Undefined && i == 0 {
          assert d[j] == Defined(ms[1..])[j - 1];
          assert d[j] in ms[1..];
        }
      }
    }
  }

  /** Strictly increasing keys. */
  ghost predicate KeysIncreasing(ms: seq<Member>) {
    forall i, j :: 0 <= i < j < |ms| ==> KeyLess(ms[i].key, ms[j].key)
  }

  /** Up to place `i` the texts agree; there `b` goes on, and `a` has ended or has the smaller unit. */
  predicate DiffersAt(a: Text, b: Text, i: nat) {
    i <= |a| && i < |b| && a[..i] == b[..i] && (i == |a| || a[i] < b[i])
  }

  /** `a` comes first in code unit order. */
  ghost predicate ComesFirst(a: Text, b: Text) { exists i :: 0 <= i < |b| && DiffersAt(a, b, i) }

  /** Keys are compared by the first code unit in which they differ, the smaller unit first and a
      prefix before what it is a prefix of. */
  lemma {:induction false} KeyOrder(a: Text, b: Text)
    ensures KeyLess(a, b) <==> ComesFirst(a, b)
    decreases |a|
  {
    if a != [] && b != [] && a[0] == b[0] {
      KeyOrder(a[1..], b[1..]);
      if i :| 0 <= i < |b[1..]| && DiffersAt(a[1..], b[1..], i) {
        assert a[..i + 1] == [a[0]] + a[1..][..i] && b[..i + 1] == [b[0]] + b[1..][..i];
        assert DiffersAt(a, b, i + 1);
      }
      if i :| 0 <= i < |b| && DiffersAt(a, b, i) {
        assert i > 0 && a[1..][..i - 1] == a[..i][1..] && b[1..][..i - 1] == b[..i][1..];
        assert DiffersAt(a[1..], b[1..], i - 1);
      }
    } else if KeyLess(a, b) {
      assert DiffersAt(a, b, 0);
    }
  }

  /** The printed entries come in strictly increasing code unit order of their keys. */
  lemma {:induction false} EntriesIncreasing(ms: seq<Member>)
    requires DistinctKeys(ms)
    ensures KeysIncreasing(Entries(ms))
    ensures forall i, j :: 0 <= i < j < |Entries(ms)| ==> ComesFirst(Entries(ms)[i].key, Entries(ms)[j].key)
  {
    EntriesSorted(ms);
    hide KeyLess, Entries, ComesFirst;
    forall i, j | 0 <= i < j < |Entries(ms)|
      ensures ComesFirst(Entries(ms)[i].key, Entries(ms)[j].key)
    {
      KeyOrder(Entries(ms)[i].key, Entries(ms)[j].key);
    }
  }

  lemma {:induction false} EntriesSorted(ms: seq<Member>)
    requires DistinctKeys(ms)
    ensures KeysIncreasing(Entries(ms))
  {
    ByKeyStrict();
    var d, e := Defined(ms), Entries(ms);
    Sorting.SortSorted(ByKey, d);
    DefinedDistinct(ms);
    Sorting.CountedOnce(d);
    hide KeyLess, Entries, Defined, Sorting.Sort;
    forall i, j | 0 <= i < j < |e|
      ensures KeyLess(e[i].key, e[j].key)
    {
      assert !ByKey(e[j], e[i]);
      KeyLessTotal(e[i].key, e[j].key);
      if e[i].key == e[j].key {
        assert e[i] in d && e[j] in d;
        var k :| 0 <= k < |d| && d[k] == e[i];
        var l :| 0 <= l < |d| && d[l] == e[j];
        assert k == l;
        Sorting.CountedTwice(e, i, j);
      }
    }
  }

  lemma {:induction false} IncreasingDistinct(ms: seq<Member>)
    requires KeysIncreasing(ms)
    ensures DistinctKeys(ms)
  {
    forall i, j | 0 <= i < j < |ms|
      ensures ms[i].key != ms[j].key
    {
      KeyLessTotal(ms[i].key, ms[j].key);
    }
  }

  // The encoder prints the normal form

  lemma {:induction false} EntriesEncodable(ms: seq<Member>)
    ensures Encodable(Obj(ms)) <==> forall i :: 0 <= i < |Entries(ms)| ==> Encodable(Entries(ms)[i].value)
  {
    var e := Entries(ms);
    hide Entries;
    forall i | Encodable(Obj(ms)) && 0 <= i < |e|
      ensures Encodable(e[i].value)
    {
      assert e[i] in ms;
    }
    forall i | 0 <= i < |ms| && ms[i].value != Undefined
      ensures ms[i] in e
    {
    }
  }

  /** The encoder throws exactly on values outside `Encodable`, and prints the normal form otherwise. */
  lemma {:induction false} EncodePrintsNorm(v: Value)
    ensures Encode(v).Some? <==> Encodable(v)
    ensures Encode(v).Some? ==> Encode(v).value == Print(Norm(v))
    decreases v, 1, 0
  {
    hide Entries, EncodeEntries, NormEntries, PrintMembers, EncodeItems, PrintItems, NormItems;
    match v
    case Arr(items) => EncodeItemsPrints(items);
    case Obj(ms) =>
      EntriesBelow(ms);
      EncodeEntriesPrints(v, Entries(ms));
      EntriesEncodable(ms);
    case _ =>
  }

  lemma {:induction false} EncodeItemsPrints(items: seq<Value>)
    ensures EncodeItems(items).Some? <==> forall i :: 0 <= i < |items| ==> items[i] == Undefined || Encodable(items[i])
    ensures EncodeItems(items).Some? ==> EncodeItems(items).value == PrintItems(NormItems(items))
    decreases items, 0, 0
  {
    if items != [] {
      EncodePrintsNorm(items[0]);
      EncodeItemsPrints(items[1..]);
      hide Encode, Print, Norm;
      assert NormItems(items)[1..] == NormItems(items[1..]);
      assert items == [items[0]] + items[1..];
    }
  }

  lemma {:induction false} EncodeEntriesPrints(v: Value, ms: seq<Member>)
    requires Below(ms, v)
    ensures EncodeEntries(v, ms).Some? <==> forall i :: 0 <= i < |ms| ==> Encodable(ms[i].value)
    ensures EncodeEntries(v, ms).Some? ==> EncodeEntries(v, ms).value == PrintMembers(NormEntries(v, ms))
    decreases v, 0, |ms|
  {
    if ms != [] {
      EncodePrintsNorm(ms[0].value);
      EncodeEntriesPrints(v, ms[1..]);
      assert NormEntries(v, ms)[1..] == NormEntries(v, ms[1..]);
      assert ms == [ms[0]] + ms[1..];
    }
  }

  /** The normal form is a JSON value, with increasing keys in every object. */
  ghost predicate Canonical(v: Value) {
    match v
    case Arr(items) => forall i :: 0 <= i < |items| ==> Canonical(items[i])
    case Obj(ms) => KeysIncreasing(ms) && forall i :: 0 <= i < |ms| ==> Canonical(ms[i].value)
    case _ => Plain(v)
  }

  lemma {:induction false} NormCanonical(v: Value)
    requires Encodable(v) && Proper(v)
    ensures Canonical(Norm(v))
    decreases v
  {
    match v
    case Arr(items) =>
      forall i | 0 <= i < |items| && items[i] != Undefined
        ensures Canonical(Norm(items[i]))
      {
        NormCanonical(items[i]);
      }
    case Obj(ms) =>
      EntriesBelow(ms);
      EntriesIncreasing(ms);
      var e := Entries(ms);
      forall i | 0 <= i < |e|
        ensures Canonical(Norm(e[i].value))
      {
        assert e[i] in ms;
        NormCanonical(e[i].value);
      }
    case _ =>
  }

  lemma {:induction false} CanonicalPlain(v: Value)
    requires Canonical(v)
    ensures Plain(v) && Encodable(v) && Proper(v)
    decreases v
  {
    match v
    case Arr(items) =>
      forall i | 0 <= i < |items|
        ensures Plain(items[i]) && Encodable(items[i]) && Proper(items[i])
      {
        CanonicalPlain(items[i]);
      }
    case Obj(ms) =>
      IncreasingDistinct(ms);
      forall i | 0 <= i < |ms|
        ensures Plain(ms[i].value) && Encodable(ms[i].value) && Proper(ms[i].value)
      {
        CanonicalPlain(ms[i].value);
      }
    case _ =>
  }

  lemma {:induction false} AllDefined(ms: seq<Member>)
    requires forall i :: 0 <= i < |ms| ==> ms[i].value != Undefined
    ensures Defined(ms) == ms
  {
    if ms != [] {
      AllDefined(ms[1..]);
      assert ms == [ms[0]] + ms[1..];
    }
  }

  /** A value in normal form is its own normal form. */
  lemma {:induction false} NormFixed(v: Value)
    requires Canonical(v)
    ensures Norm(v) == v
    decreases v
  {
    match v
    case Arr(items) =>
      forall i | 0 <= i < |items|
        ensures items[i] != Undefined && Norm(items[i]) == items[i]
      {
        NormFixed(items[i]);
      }
      assert NormItems(items) == items;
    case Obj(ms) =>
      EntriesBelow(ms);
      forall i | 0 <= i < |ms|
        ensures ms[i].value != Undefined && Norm(ms[i].value) == ms[i].value
      {
        NormFixed(ms[i].value);
      }
      AllDefined(ms);
      assert Sorting.Sorted(ByKey, ms) by {
        forall i, j | 0 <= i < j < |ms|
          ensures !ByKey(ms[j], ms[i])
        {
          KeyLessTotal(ms[i].key, ms[j].key);
        }
      }
      Sorting.SortIdempotent(ByKey, ms);
      assert NormEntries(v, ms) == ms;
    case _ =>
  }

  /** Parsing an encoding gives the normal form; encoding that again gives the same text. */
  lemma {:induction false} ParseEncode(v: Value)
    requires Encodable(v) && Proper(v)
    ensures Encode(v).Some? && Parse(Encode(v).value) == Some(Norm(v))
    ensures Encode(Norm(v)) == Encode(v) && Canonical(Norm(v)) && Norm(Norm(v)) == Norm(v)
  {
    EncodePrintsNorm(v);
    NormCanonical(v);
    CanonicalPlain(Norm(v));
    ParsePrint(Norm(v));
    NormFixed(Norm(v));
    EncodePrintsNorm(Norm(v));
  }

  /** Equal texts mean equal normal forms, and conversely. */
  lemma {:induction false} EncodeInjective(v: Value, w: Value)
    requires Encodable(v) && Proper(v) && Encodable(w) && Proper(w)
    ensures Encode(v) == Encode(w) <==> Norm(v) == Norm(w)
  {
    ParseEncode(v);
    ParseEncode(w);
  }

  // The same relation without sorting or printing

  /** The defined value an object holds under a key. */
  function Lookup(ms: seq<Member>, k: Text): (r: Option<Value>)
    ensures r.Some? ==> exists i :: 0 <= i < |ms| && ms[i] == Member(k, r.value) && r.value != Undefined
  {
    if ms == [] then None
    else if ms[0].key == k && ms[0].value != Undefined then
      assert ms[0] == Member(k, ms[0].value);
      Some(ms[0].value)
    else
      var r := Lookup(ms[1..], k);
      assert r.Some? ==> exists i :: 0 <= i < |ms[1..]| && ms[1..][i] == Member(k, r.value) && r.value != Undefined;
      assert forall i :: 0 <= i < |ms[1..]| ==> ms[1..][i] == ms[i + 1];
      r
  }

  lemma {:induction false} LookupBelow(ms: seq<Member>, k: Text)
    ensures Lookup(ms, k).Some? ==> Lookup(ms, k).value < Obj(ms)
  {
  }

  /** A bigint counts as its decimal string and both zeros as one. */
  function Scalar(v: Value): Value {
    match v
    case Num(x) => Num(Unsigned(x))
    case BigInt(n) => Str(IntText(n))
    case _ => v
  }

  /** Undefined members dropped, undefined slots as null, bigints as strings, key order ignored. */
  ghost predicate Equivalent(v: Value, w: Value)
    decreases v
  {
    match v
    case Arr(a) =>
      w.Arr? && |a| == |w.items|
      && forall i :: 0 <= i < |a| ==>
        if a[i] == Undefined || w.items[i] == Undefined then Slot(a[i]) == Slot(w.items[i])
        else Equivalent(a[i], w.items[i])
    case Obj(a) =>
      w.Obj?
      && forall k: Text {:trigger Lookup(a, k)} {:trigger Lookup(w.members, k)} ::
        && (Lookup(a, k).Some? <==> Lookup(w.members, k).Some?)
        && (LookupBelow(a, k); Lookup(a, k).Some? ==> Equivalent(Lookup(a, k).value, Lookup(w.members, k).value))
    case _ => Scalar(v) == Scalar(w)
  }

  lemma {:induction false} LookupMember(ms: seq<Member>, m: Member)
    requires DistinctKeys(ms) && m in ms && m.value != Undefined
    ensures Lookup(ms, m.key) == Some(m.value)
  {
    if ms[0] != m {
      var i :| 0 <= i < |ms| && ms[i] == m;
      assert ms[0].key != ms[i].key;
      assert ms[1..][i - 1] == m;
      LookupMember(ms[1..], m);
    }
  }

  lemma {:induction false} LookupEntries(ms: seq<Member>, k: Text)
    requires DistinctKeys(ms)
    ensures Lookup(Entries(ms), k) == Lookup(ms, k)
  {
    EntriesIncreasing(ms);
    IncreasingDistinct(Entries(ms));
    var a, b := Lookup(ms, k), Lookup(Entries(ms), k);
    if a.Some? {
      LookupMember(Entries(ms), Member(k, a.value));
    }
    if b.Some? {
      LookupMember(ms, Member(k, b.value));
    }
  }

  function Keys(ms: seq<Member>): set<Text> { set i | 0 <= i < |ms| :: ms[i].key }

  lemma {:induction false} IncreasingTail(a: seq<Member>)
    requires KeysIncreasing(a) && a != []
    ensures KeysIncreasing(a[1..]) && Keys(a[1..]) == Keys(a) - {a[0].key}
    ensures forall k :: k in Keys(a) ==> !KeyLess(k, a[0].key)
  {
    forall i | 0 <= i < |a|
      ensures !KeyLess(a[i].key, a[0].key) && (i > 0 ==> a[i].key != a[0].key)
    {
      KeyLessTotal(a[0].key, a[i].key);
    }
    var t := a[1..];
    forall k | k in Keys(a) - {a[0].key}
      ensures k in Keys(t)
    {
      var i :| 0 <= i < |a| && a[i].key == k;
      assert t[i - 1].key == k;
    }
    forall k | k in Keys(t)
      ensures k in Keys(a) && k != a[0].key
    {
      var i :| 0 <= i < |t| && t[i].key == k;
      assert a[i + 1].key == k;
    }
  }

  /** Two increasing key lists with the same keys are the same list. */
  lemma {:induction false} IncreasingKeysUnique(a: seq<Member>, b: seq<Member>)
    requires KeysIncreasing(a) && KeysIncreasing(b) && Keys(a) == Keys(b)
    ensures |a| == |b| && forall i :: 0 <= i < |a| ==> a[i].key == b[i].key
  {
    assert a != [] ==> a[0].key in Keys(a);
    assert b != [] ==> b[0].key in Keys(b);
    if a != [] {
      IncreasingTail(a);
      IncreasingTail(b);
      KeyLessTotal(a[0].key, b[0].key);
      IncreasingKeysUnique(a[1..], b[1..]);
      forall i | 0 < i < |a|
        ensures a[i].key == b[i].key
      {
        assert a[1..][i - 1].key == b[1..][i - 1].key;
      }
    }
  }

  lemma {:induction false} NormMembers(v: Value)
    requires v.Obj? && Norm(v).Obj?
    ensures var e, ns := Entries(v.members), Norm(v).members;
      |ns| == |e| && forall i :: 0 <= i < |e| ==> ns[i].key == e[i].key && ns[i].value == Norm(e[i].value)
  {
    EntriesBelow(v.members);
    hide Entries;
  }

  lemma {:induction false} LookupNorm(v: Value, k: Text)
    requires v.Obj? && DistinctKeys(v.members) && Norm(v).Obj?
    ensures Lookup(v.members, k).Some? <==> exists i :: 0 <= i < |Norm(v).members| && Norm(v).members[i].key == k
    ensures forall i :: 0 <= i < |Norm(v).members| && Norm(v).members[i].key == k ==>
              Lookup(v.members, k).Some? && Norm(v).members[i].value == Norm(Lookup(v.members, k).value)
  {
    var ms := v.members;
    var e := Entries(ms);
    NormMembers(v);
    EntriesIncreasing(ms);
    IncreasingDistinct(e);
    LookupEntries(ms, k);
    hide Norm, Entries, Lookup, KeysIncreasing;
    if Lookup(e, k).Some? {
      var i :| 0 <= i < |e| && e[i] == Member(k, Lookup(e, k).value);
      assert Norm(v).members[i].key == k;
    }
    forall i | 0 <= i < |Norm(v).members| && Norm(v).members[i].key == k
      ensures Lookup(ms, k).Some? && Norm(v).members[i].value == Norm(Lookup(ms, k).value)
    {
      assert e[i] in e && e[i].key == k;
      LookupMember(e, e[i]);
    }
  }

  /** Normal forms are equal exactly for equivalent values. */
  lemma {:induction false} NormEquivalent(v: Value, w: Value)
    requires Proper(v) && Proper(w) && Encodable(v) && Encodable(w)
    ensures Norm(v) == Norm(w) <==> Equivalent(v, w)
    decreases v
  {
    match v
    case Arr(a) =>
      if w.Arr? && |a| == |w.items| {
        forall i | 0 <= i < |a|
          ensures Norm(v).items[i] == Norm(w).items[i] <==>
                  if a[i] == Undefined || w.items[i] == Undefined then Slot(a[i]) == Slot(w.items[i])
                  else Equivalent(a[i], w.items[i])
        {
          if a[i] != Undefined && w.items[i] != Undefined {
            NormEquivalent(a[i], w.items[i]);
          } else {
            NullNorm(a[i]);
            NullNorm(w.items[i]);
          }
        }
      }
    case Obj(a) =>
      if w.Obj? {
        if Norm(v) == Norm(w) {
          NormImpliesEquivalent(v, w);
        }
        if Equivalent(v, w) {
          EquivalentImpliesNorm(v, w);
        }
      }
    case _ => ScalarNorm(v, w);
  }

  lemma {:induction false} NullNorm(v: Value)
    ensures v != Undefined ==> (Norm(v) == Null <==> v == Null)
  {
  }

  lemma {:induction false} ScalarNorm(v: Value, w: Value)
    requires !v.Arr? && !v.Obj?
    ensures Norm(v) == Norm(w) <==> Scalar(v) == Scalar(w)
  {
  }

  lemma {:induction false} NormImpliesEquivalent(v: Value, w: Value)
    requires v.Obj? && w.Obj? && Proper(v) && Proper(w) && Encodable(v) && Encodable(w)
    requires Norm(v) == Norm(w)
    ensures Equivalent(v, w)
    decreases v, 0
  {
    forall k: Text
      ensures Lookup(v.members, k).Some? <==> Lookup(w.members, k).Some?
      ensures Lookup(v.members, k).Some? ==> Equivalent(Lookup(v.members, k).value, Lookup(w.members, k).value)
    {
      LookupNorm(v, k);
      LookupNorm(w, k);
      LookupBelow(v.members, k);
      var a, b := Lookup(v.members, k), Lookup(w.members, k);
      if a.Some? {
        var i :| 0 <= i < |Norm(v).members| && Norm(v).members[i].key == k;
        assert Norm(a.value) == Norm(b.value);
        NormEquivalent(a.value, b.value);
      }
    }
  }

  lemma {:induction false} SameKeys(v: Value, w: Value)
    requires v.Obj? && w.Obj? && DistinctKeys(v.members) && DistinctKeys(w.members)
    requires forall k :: Lookup(v.members, k).Some? <==> Lookup(w.members, k).Some?
    ensures Keys(Norm(v).members) == Keys(Norm(w).members)
  {
    forall k
      ensures k in Keys(Norm(v).members) <==> k in Keys(Norm(w).members)
    {
      LookupNorm(v, k);
      LookupNorm(w, k);
    }
  }

  lemma {:induction false} EquivalentImpliesNorm(v: Value, w: Value)
    requires v.Obj? && w.Obj? && Proper(v) && Proper(w) && Encodable(v) && Encodable(w)
    requires Equivalent(v, w)
    ensures Norm(v) == Norm(w)
    decreases v, 0
  {
    var a, b := Norm(v).members, Norm(w).members;
    NormCanonical(v);
    NormCanonical(w);
    SameKeys(v, w);
    IncreasingKeysUnique(a, b);
    forall i | 0 <= i < |a|
      ensures a[i] == b[i]
    {
      var k := a[i].key;
      LookupNorm(v, k);
      LookupNorm(w, k);
      LookupBelow(v.members, k);
      var x, y := Lookup(v.members, k).value, Lookup(w.members, k).value;
      assert Equivalent(x, y);
      assert Proper(x) && Proper(y) && Encodable(x) && Encodable(y);
      NormEquivalent(x, y);
      assert a[i] == Member(k, Norm(x)) && b[i] == Member(k, Norm(y));
    }
  }

  /** The canonical encoding is injective up to equivalence, and only up to it. */
  lemma {:induction false} EncodeSameText(v: Value, w: Value)
    requires Encodable(v) && Proper(v) && Encodable(w) && Proper(w)
    ensures Encode(v) == Encode(w) <==> Equivalent(v, w)
  {
    EncodeInjective(v, w);
    NormEquivalent(v, w);
  }

  // Digests

  /** `canonicalDigest` for a hash `sha` (hex text of sha256 in the source). */
  function Digest(sha: Bytes -> Text, v: Value): Option<Text> {
    match Encode(v)
    case None => None
    case Some(t) => Some(sha(Utf8Encode(t)))
  }

  /** Two different inputs that `sha` cannot tell apart. */
  ghost predicate Collision(sha: Bytes -> Text, a: Bytes, b: Bytes) {
    a != b && sha(a) == sha(b)
  }

  lemma {:induction false} EncodeWellFormed(v: Value)
    requires Encode(v).Some?
    ensures Clean(Encode(v).value)
  {
    EncodePrintsNorm(v);
    PrintClean(Norm(v));
  }

  /** A digest identifies a value up to equivalence: the only other way to meet is a collision
      of the hash. UTF-8 adds none, because an encoding never holds a lone surrogate. */
  lemma {:induction false} DigestBinds(sha: Bytes -> Text, v: Value, w: Value)
    requires Encodable(v) && Proper(v) && Encodable(w) && Proper(w)
    ensures Digest(sha, v).Some? && Digest(sha, w).Some?
    ensures Equivalent(v, w) ==> Digest(sha, v) == Digest(sha, w)
    ensures Digest(sha, v) == Digest(sha, w) ==>
              Equivalent(v, w) || Collision(sha, Utf8Encode(Encode(v).value), Utf8Encode(Encode(w).value))
  {
    hide Encode, Encodable, Proper, Equivalent;
    ParseEncode(v);
    ParseEncode(w);
    EncodeSameText(v, w);
    EncodeWellFormed(v);
    EncodeWellFormed(w);
    if Utf8Encode(Encode(v).value) == Utf8Encode(Encode(w).value) {
      Utf8Injective(Encode(v).value, Encode(w).value);
    }
  }

  /** The bitwise operators `^` and `|` on naturals. */
  function Xor(a: nat, b: nat): nat
    decreases a + b
  {
    if a == 0 && b == 0 then 0 else 2 * Xor(a / 2, b / 2) + (a % 2 + b % 2) % 2
  }

  function Or(a: nat, b: nat): nat
    decreases a + b
  {
    if a == 0 && b == 0 then 0
    else 2 * Or(a / 2, b / 2) + (if a % 2 == 0 && b % 2 == 0 then 0 else 1)
  }

  lemma {:induction false} XorZero(a: nat, b: nat)
    ensures Xor(a, b) == 0 <==> a == b
    decreases a + b
  {
    if a != 0 || b != 0 {
      XorZero(a / 2, b / 2);
    }
  }

  lemma {:induction false} OrZero(a: nat, b: nat)
    ensures Or(a, b) == 0 <==> a == 0 && b == 0
    decreases a + b
  {
    if a != 0 || b != 0 {
      OrZero(a / 2, b / 2);
    }
  }

  /** `digestsEqual`: the differences are accumulated over the whole length. */
  method DigestsEqual(a: Text, b: Text) returns (equal: bool)
    ensures equal <==> a == b
  {
    if |a| != |b| {
      return false;
    }
    var diff := 0;
    for i := 0 to |a|
      invariant diff == 0 <==> a[..i] == b[..i]
    {
      XorZero(a[i], b[i]);
      OrZero(diff, Xor(a[i], b[i]));
      assert a[..i + 1] == a[..i] + [a[i]] && b[..i + 1] == b[..i] + [b[i]];
      diff := Or(diff, Xor(a[i], b[i]));
    }
    assert a[..|a|] == a && b[..|b|] == b;
    return diff == 0;
  }
}
