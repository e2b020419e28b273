/** Stable sorting by a comparator, as `Array.prototype.sort` does it, and the uniqueness of
    its result. Every ordered list in the evidence pipeline goes through this one definition. */
module Sorting {

  /** Puts `x` in front of the first element that does not precede it. */
  function Insert<T>(less: (T, T) -> bool, x: T, s: seq<T>): (r: seq<T>)
    ensures multiset(r) == multiset(s) + multiset{x}
    ensures |r| == |s| + 1
  {
    if s == [] || !less(s[0], x) then
      assert [x] + s == [x] + s;
      [x] + s
    else
      assert s == [s[0]] + s[1..];
      [s[0]] + Insert(less, x, s[1..])
  }

  /** Stable sort: elements that tie under `less` keep their order. */
  function Sort<T>(less: (T, T) -> bool, s: seq<T>): (r: seq<T>)
    ensures multiset(r) == multiset(s)
    ensures |r| == |s|
  {
    if s == [] then []
    else
      assert s == [s[0]] + s[1..];
      Insert(less, s[0], Sort(less, s[1..]))
  }

  lemma {:induction false} SameElements<T>(a: seq<T>, b: seq<T>)
    requires multiset(a) == multiset(b)
    ensures forall x :: x in a <==> x in b
  {
    forall x
      ensures x in a <==> x in b
    {
      assert x in a <==> x in multiset(a);
      assert x in b <==> x in multiset(b);
    }
  }

  lemma {:induction false} SameElement<T>(a: seq<T>, b: seq<T>, x: T)
    requires multiset(a) == multiset(b) && x in a
    ensures x in b
  {
    assert x in multiset(a);
  }

  lemma {:induction false} CountedTwice<T>(s: seq<T>, i: nat, j: nat)
    requires i < j < |s| && s[i] == s[j]
    ensures multiset(s)[s[i]] >= 2
  {
    assert s == s[..j] + s[j..];
    assert s[i] in s[..j] && s[j] in s[j..];
  }

  lemma {:induction false} CountedOnce<T>(s: seq<T>)
    requires forall i, j :: 0 <= i < j < |s| ==> s[i] != s[j]
    ensures forall x :: multiset(s)[x] <= 1
  {
    if s != [] {
      CountedOnce(s[1..]);
      assert s == [s[0]] + s[1..];
      assert s[0] !in s[1..];
    }
  }

  lemma {:induction false} SortElements<T>(less: (T, T) -> bool, s: seq<T>)
    ensures forall x :: x in Sort(less, s) <==> x in s
  {
    SameElements(Sort(less, s), s);
  }

  /** A strict weak order. */
  ghost predicate StrictOrder<T(!new)>(less: (T, T) -> bool) {
    && (forall x, y :: less(x, y) ==> !less(y, x))
    && (forall x, y, z :: less(x, y) && less(y, z) ==> less(x, z))
    && (forall x, y, z :: less(x, y) ==> less(x, z) || less(z, y))
  }

  ghost predicate Sorted<T>(less: (T, T) -> bool, s: seq<T>) {
    forall i, j :: 0 <= i < j < |s| ==> !less(s[j], s[i])
  }

  /** Distinct elements of `s` never tie. */
  ghost predicate Separated<T>(less: (T, T) -> bool, s: seq<T>) {
    forall x, y :: x in s && y in s && x != y ==> less(x, y) || less(y, x)
  }

  lemma {:induction false} InsertSorted<T(!new)>(less: (T, T) -> bool, x: T, s: seq<T>)
    requires StrictOrder(less) && Sorted(less, s)
    ensures Sorted(less, Insert(less, x, s))
  {
    if s == [] || !less(s[0], x) {
      forall j | 0 <= j < |s|
        ensures !less(s[j], x)
      {
        assert j > 0 ==> !less(s[j], s[0]);
      }
    } else {
      var t := s[1..];
      InsertSorted(less, x, t);
      var r := Insert(less, x, t);
      SameElements(r, t + [x]);
      forall j | 0 <= j < |r|
        ensures !less(r[j], s[0])
      {
        assert r[j] in t + [x];
      }
    }
  }

  lemma {:induction false} SortSorted<T(!new)>(less: (T, T) -> bool, s: seq<T>)
    requires StrictOrder(less)
    ensures Sorted(less, Sort(less, s))
  {
    if s != [] {
      SortSorted(less, s[1..]);
      InsertSorted(less, s[0], Sort(less, s[1..]));
    }
  }

  lemma {:induction false} SameLeast<T(!new)>(less: (T, T) -> bool, a: seq<T>, b: seq<T>)
    requires Sorted(less, a) && Sorted(less, b) && Separated(less, a) && a != [] && b != []
    requires a[0] in b && b[0] in a
    ensures a[0] == b[0]
  {
    var i :| 0 <= i < |b| && b[i] == a[0];
    var j :| 0 <= j < |a| && a[j] == b[0];
    assert i > 0 ==> !less(b[i], b[0]);
    assert j > 0 ==> !less(a[j], a[0]);
    assert a[0] in a;
  }

  lemma {:induction false} TailSorted<T(!new)>(less: (T, T) -> bool, a: seq<T>)
    requires Sorted(less, a) && a != []
    ensures Sorted(less, a[1..])
    ensures Separated(less, a) ==> Separated(less, a[1..])
    ensures multiset(a) == multiset{a[0]} + multiset(a[1..])
  {
    assert a == [a[0]] + a[1..];
  }

  /** Two sorted lists of the same elements are the same list, when distinct elements never tie. */
  lemma {:induction false} SortedUnique<T(!new)>(less: (T, T) -> bool, a: seq<T>, b: seq<T>)
    requires Sorted(less, a) && Sorted(less, b) && Separated(less, a)
    requires multiset(a) == multiset(b)
    ensures a == b
  {
    SameElements(a, b);
    assert |a| == |multiset(a)| == |multiset(b)| == |b|;
    if a != [] {
      assert a[0] in a && b[0] in b;
      SameLeast(less, a, b);
      TailSorted(less, a);
      TailSorted(less, b);
      Cancel(multiset{a[0]}, multiset(a[1..]), multiset(b[1..]));
      SortedUnique(less, a[1..], b[1..]);
      assert a == [a[0]] + a[1..] && b == [b[0]] + b[1..];
    }
  }

  lemma {:induction false} Cancel<T>(x: multiset<T>, a: multiset<T>, b: multiset<T>)
    requires x + a == x + b
    ensures a == b
  {
    assert (x + a) - x == a && (x + b) - x == b;
  }

  /** The order in which elements were listed does not survive a sort that separates them. */
  lemma {:induction false} SortPermutation<T(!new)>(less: (T, T) -> bool, a: seq<T>, b: seq<T>)
    requires StrictOrder(less) && Separated(less, a) && multiset(a) == multiset(b)
    ensures Sort(less, a) == Sort(less, b)
  {
    SortSorted(less, a);
    SortSorted(less, b);
    SortElements(less, a);
    SortedUnique(less, Sort(less, a), Sort(less, b));
  }

  /** A list that is already in order is left alone. */
  lemma {:induction false} SortIdempotent<T>(less: (T, T) -> bool, s: seq<T>)
    requires Sorted(less, s)
    ensures Sort(less, s) == s
  {
    if s != [] {
      SortIdempotent(less, s[1..]);
      assert |s| > 1 ==> !less(s[1], s[0]);
    }
  }

  /** Order by `first`, ties by `second`. */
  function Lex<T>(first: (T, T) -> bool, second: (T, T) -> bool): (T, T) -> bool {
    (x, y) => first(x, y) || (!first(y, x) && second(x, y))
  }

  lemma {:induction false} LexStrict<T(!new)>(first: (T, T) -> bool, second: (T, T) -> bool)
    requires StrictOrder(first) && StrictOrder(second)
    ensures StrictOrder(Lex(first, second))
  {
  }

  lemma {:induction false} InsertLex<T>(first: (T, T) -> bool, second: (T, T) -> bool, x: T, s: seq<T>)
    requires forall y :: y in s ==> !second(y, x)
    ensures Insert(Lex(first, second), x, s) == Insert(first, x, s)
  {
    if s != [] && first(s[0], x) {
      assert forall y :: y in s[1..] ==> y in s;
      InsertLex(first, second, x, s[1..]);
    } else if s != [] {
      assert s[0] in s;
    }
  }

  /** Stability: sorting a list that is already in `second` order also breaks ties by it. */
  lemma {:induction false} SortStable<T>(first: (T, T) -> bool, second: (T, T) -> bool, s: seq<T>)
    requires Sorted(second, s)
    ensures Sort(Lex(first, second), s) == Sort(first, s)
  {
    if s != [] {
      var t := s[1..];
      SortStable(first, second, t);
      var rest := Sort(first, t);
      assert multiset(rest) == multiset(t);
      forall y | y in rest
        ensures !second(y, s[0])
      {
        SameElement(rest, t, y);
        var i :| 0 <= i < |t| && t[i] == y;
        assert s[i + 1] == y;
      }
      InsertLex(first, second, s[0], rest);
    }
  }

  ghost predicate Precedes<T>(s: seq<T>, x: T, y: T) {
    exists i, j :: 0 <= i < j < |s| && s[i] == x && s[j] == y
  }

  lemma {:induction false} InsertPrecedes<T>(less: (T, T) -> bool, z: T, s: seq<T>, x: T, y: T)
    requires Precedes(s, x, y)
    ensures Precedes(Insert(less, z, s), x, y)
  {
    var i, j :| 0 <= i < j < |s| && s[i] == x && s[j] == y;
    var r := Insert(less, z, s);
    if !less(s[0], z) {
      assert r[i + 1] == x && r[j + 1] == y;
    } else if i == 0 {
      SameElements(Insert(less, z, s[1..]), s[1..] + [z]);
      assert y == s[1..][j - 1];
      assert y in Insert(less, z, s[1..]);
      var k :| 0 <= k < |r| - 1 && Insert(less, z, s[1..])[k] == y;
      assert r[0] == x && r[k + 1] == y;
    } else {
      assert s[1..][i - 1] == x && s[1..][j - 1] == y;
      InsertPrecedes(less, z, s[1..], x, y);
      var k, l :| 0 <= k < l < |r| - 1 && Insert(less, z, s[1..])[k] == x && Insert(less, z, s[1..])[l] == y;
      assert r[k + 1] == x && r[l + 1] == y;
    }
  }

  lemma {:induction false} InsertBefore<T>(less: (T, T) -> bool, x: T, s: seq<T>, y: T)
    requires y in s && !less(y, x)
    ensures Precedes(Insert(less, x, s), x, y)
  {
    var r := Insert(less, x, s);
    if !less(s[0], x) {
      var k :| 0 <= k < |s| && s[k] == y;
      assert r[0] == x && r[k + 1] == y;
    } else {
      assert s == [s[0]] + s[1..];
      InsertBefore(less, x, s[1..], y);
      var k, l :| 0 <= k < l < |r| - 1 && Insert(less, x, s[1..])[k] == x && Insert(less, x, s[1..])[l] == y;
      assert r[k + 1] == x && r[l + 1] == y;
    }
  }

  /** An element stays in front of a later one that does not order before it. */
  lemma {:induction false} SortKeepsOrder<T>(less: (T, T) -> bool, s: seq<T>, i: nat, j: nat)
    requires i < j < |s| && !less(s[j], s[i])
    ensures Precedes(Sort(less, s), s[i], s[j])
  {
    if i == 0 {
      SortElements(less, s[1..]);
      assert s[1..][j - 1] == s[j];
      InsertBefore(less, s[0], Sort(less, s[1..]), s[j]);
    } else {
      SortKeepsOrder(less, s[1..], i - 1, j - 1);
      InsertPrecedes(less, s[0], Sort(less, s[1..]), s[i], s[j]);
    }
  }
}
