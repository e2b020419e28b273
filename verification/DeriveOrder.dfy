/** The derivation does not depend on the order evidence is listed in, and exactly when it would. */
module DeriveOrder {
  import opened Utf
  import opened Numbers
  import opened Derive
  import opened Metrics
  import opened Claims
  import Sorting

  // The list of sources

  ghost predicate DistinctIndices(s: seq<Source>) {
    forall i, j :: 0 <= i < j < |s| ==> ToReal(s[i].index) != ToReal(s[j].index)
  }

  predicate Matches(s: Source, e: Endpoint) { s.endpoint == e && s.usable }

  lemma {:induction false} MatchingCount(s: seq<Source>, e: Endpoint, x: Source)
    ensures multiset(Matching(s, e))[x] == if Matches(x, e) then multiset(s)[x] else 0
  {
    if s != [] {
      var n := |s| - 1;
      assert s == s[..n] + [s[n]];
      MatchingCount(s[..n], e, x);
    }
  }

  lemma {:induction false} UsablePermuted(a: seq<Source>, b: seq<Source>, e: Endpoint)
    requires multiset(a) == multiset(b) && DistinctIndices(a)
    ensures Usable(a, e) == Usable(b, e)
  {
    var m := Matching(a, e);
    forall x
      ensures multiset(m)[x] == multiset(Matching(b, e))[x]
    {
      MatchingCount(a, e, x);
      MatchingCount(b, e, x);
    }
    assert Sorting.Separated(ByIndex, m) by {
      forall x, y | x in m && y in m && x != y
        ensures ByIndex(x, y) || ByIndex(y, x)
      {
        var i :| 0 <= i < |a| && a[i] == x;
        var j :| 0 <= j < |a| && a[j] == y;
        assert i < j || j < i;
      }
    }
    Sorting.SortPermutation(ByIndex, m, Matching(b, e));
  }

  /** Listing the sources in another order changes no cycle, no metric and no claim. */
  lemma {:induction false} SourceOrderIrrelevant(before: (Text, Text) -> bool, w: Window, a: seq<Source>,
      b: seq<Source>)
    requires multiset(a) == multiset(b) && DistinctIndices(a)
    ensures MetricsOf(before, w, a) == MetricsOf(before, w, b)
    ensures ClaimsOf(MetricsOf(before, w, a)) == ClaimsOf(MetricsOf(before, w, b))
  {
    UsablePermuted(a, b, History);
    UsablePermuted(a, b, Trades);
    UsablePermuted(a, b, TokenSecurity);
    UsablePermuted(a, b, Funding);
  }

  // The entries inside a history body

  /** The first cycle with identity `k`. */
  function FirstOf(cs: seq<Cycle>, k: Identity): (r: Option<Cycle>)
    ensures r.None? <==> k !in Identities(cs)
    ensures r.Some? ==> r.value in cs && IdentityOf(r.value) == k
  {
    if cs == [] then None
    else
      var n := |cs| - 1;
      assert cs == cs[..n] + [cs[n]];
      assert Identities(cs) == Identities(cs[..n]) + {IdentityOf(cs[n])};
      var r := FirstOf(cs[..n], k);
      if r.Some? then r else if IdentityOf(cs[n]) == k then Some(cs[n]) else None
  }

  lemma {:induction false} FirstOfConcat(a: seq<Cycle>, b: seq<Cycle>, k: Identity)
    ensures FirstOf(a + b, k) == if FirstOf(a, k).Some? then FirstOf(a, k) else FirstOf(b, k)
  {
    hide Identities, IdentityOf;
    if b == [] {
      assert a + b == a;
    } else {
      var n := |b| - 1;
      var ab := a + b;
      assert ab[..|ab| - 1] == a + b[..n] && ab[|ab| - 1] == b[n];
      FirstOfConcat(a, b[..n], k);
    }
  }

  ghost predicate DistinctIdentities(cs: seq<Cycle>) {
    forall i, j :: 0 <= i < j < |cs| ==> IdentityOf(cs[i]) != IdentityOf(cs[j])
  }

  /** Deduplication keeps exactly the first listing of each identity. */
  lemma {:induction false} DedupeKeepsFirst(cs: seq<Cycle>)
    ensures DistinctIdentities(Dedupe(cs))
    ensures forall c :: c in Dedupe(cs) <==> FirstOf(cs, IdentityOf(c)) == Some(c)
  {
    if cs != [] {
      var n := |cs| - 1;
      var d := Dedupe(cs[..n]);
      DedupeKeepsFirst(cs[..n]);
      forall i | 0 <= i < |d|
        ensures IdentityOf(d[i]) in Identities(d)
      {
        assert d[i] in d;
      }
    }
  }

  lemma {:induction false} DedupePrefix(a: seq<Cycle>, b: seq<Cycle>)
    ensures Dedupe(a) <= Dedupe(a + b)
  {
    hide Dedupe, Identities, IdentityOf;
    if b == [] {
      assert a + b == a;
    } else {
      var n := |b| - 1;
      DedupePrefix(a, b[..n]);
      DedupeSnoc(a + b[..n], b[n]);
      assert (a + b[..n]) + [b[n]] == a + b;
    }
  }

  lemma {:induction false} SameOnce(a: seq<Cycle>, b: seq<Cycle>)
    requires DistinctIdentities(a) && DistinctIdentities(b)
    requires forall c :: c in a <==> c in b
    ensures multiset(a) == multiset(b)
  {
    Sorting.CountedOnce(a);
    Sorting.CountedOnce(b);
    forall c
      ensures multiset(a)[c] == multiset(b)[c]
    {
      assert c in a <==> c in multiset(a);
      assert c in b <==> c in multiset(b);
    }
  }

  /** Same sources, each history body listing the same entries, in any order and any number of times. */
  ghost predicate Relisted(a: seq<Source>, b: seq<Source>) {
    |a| == |b| && forall i :: 0 <= i < |a| ==>
      a[i].index == b[i].index && forall e :: e in a[i].body.history <==> e in b[i].body.history
  }

  ghost predicate IndexOrdered(h: seq<Source>) {
    forall i, j :: 0 <= i < j < |h| ==> ToReal(h[i].index) < ToReal(h[j].index)
  }

  predicate Tied(before: (Text, Text) -> bool, c: Cycle, d: Cycle) {
    !CycleLess(before, c, d) && !CycleLess(before, d, c)
  }

  /** `c` is listed in source `i`, and no earlier source lists its identity. */
  ghost predicate Fresh(w: Window, h: seq<Source>, i: nat, c: Cycle)
    requires i < |h|
  {
    c in InWindow(w, h[i].body.history, h[i].index) && IdentityOf(c) !in Identities(Candidates(w, h[..i]))
  }

  /** No source lists two different fresh cycles that the sort cannot tell apart. Two ways to
      break this: two payloads for one identity, or a missing entry date beside one at the epoch. */
  ghost predicate Unambiguous(before: (Text, Text) -> bool, w: Window, h: seq<Source>) {
    forall i, c, d :: 0 <= i < |h| && Fresh(w, h, i, c) && Fresh(w, h, i, d) && Tied(before, c, d) ==> c == d
  }

  lemma {:induction false} InWindowSame(w: Window, a: seq<Closed>, b: seq<Closed>, x: Number)
    requires forall e :: e in a <==> e in b
    ensures forall c :: c in InWindow(w, a, x) <==> c in InWindow(w, b, x)
  {
  }

  lemma {:induction false} CandidatesStep(w: Window, h: seq<Source>, n: nat)
    requires n < |h|
    ensures Candidates(w, h[..n + 1]) == Candidates(w, h[..n]) + InWindow(w, h[n].body.history, h[n].index)
  {
    assert h[..n + 1][..n] == h[..n];
  }

  /** In one source, the first listing of an identity no earlier source lists. */
  lemma {:induction false} FirstInSource(before: (Text, Text) -> bool, w: Window, a: seq<Source>, m: nat, b: Source,
      k: Identity)
    requires m < |a| && Unambiguous(before, w, a) && Collation(before)
    requires k !in Identities(Candidates(w, a[..m]))
    requires a[m].index == b.index && forall e :: e in a[m].body.history <==> e in b.body.history
    ensures FirstOf(InWindow(w, a[m].body.history, a[m].index), k) == FirstOf(InWindow(w, b.body.history, b.index), k)
  {
    var x := InWindow(w, a[m].body.history, a[m].index);
    InWindowSame(w, a[m].body.history, b.body.history, b.index);
    forall c, d | c in x && d in x && IdentityOf(c) == k && IdentityOf(d) == k
      ensures c == d
    {
      assert Fresh(w, a, m, c) && Fresh(w, a, m, d);
      TiedTwins(before, c, d);
    }
    FirstAgree(x, InWindow(w, b.body.history, b.index), k);
  }

  lemma {:induction false} FirstStep(p: seq<Cycle>, q: seq<Cycle>, x: seq<Cycle>, y: seq<Cycle>, k: Identity)
    requires FirstOf(p, k) == FirstOf(q, k) && (FirstOf(p, k).None? ==> FirstOf(x, k) == FirstOf(y, k))
    ensures FirstOf(p + x, k) == FirstOf(q + y, k)
  {
    FirstOfConcat(p, x, k);
    FirstOfConcat(q, y, k);
  }

  lemma {:induction false} FirstRelisted(before: (Text, Text) -> bool, w: Window, a: seq<Source>, b: seq<Source>,
                                         n: nat, k: Identity)
    requires n <= |a| && Relisted(a, b) && Unambiguous(before, w, a) && Collation(before)
    ensures FirstOf(Candidates(w, a[..n]), k) == FirstOf(Candidates(w, b[..n]), k)
  {
    if n > 0 {
      var m := n - 1;
      FirstRelisted(before, w, a, b, m, k);
      if k !in Identities(Candidates(w, a[..m])) {
        FirstInSource(before, w, a, m, b[m], k);
      }
      CandidatesStep(w, a, m);
      CandidatesStep(w, b, m);
      FirstStep(Candidates(w, a[..m]), Candidates(w, b[..m]),
                InWindow(w, a[m].body.history, a[m].index), InWindow(w, b[m].body.history, b[m].index), k);
    }
  }

  lemma {:induction false} TiedTwins(before: (Text, Text) -> bool, c: Cycle, d: Cycle)
    requires Collation(before) && IdentityOf(c) == IdentityOf(d)
    ensures Tied(before, c, d)
  {
  }

  lemma {:induction false} FirstAgree(x: seq<Cycle>, y: seq<Cycle>, k: Identity)
    requires forall c :: c in x <==> c in y
    requires forall c, d :: c in x && d in x && IdentityOf(c) == k && IdentityOf(d) == k ==> c == d
    ensures FirstOf(x, k) == FirstOf(y, k)
  {
    var c, d := FirstOf(x, k), FirstOf(y, k);
    if c.Some? {
      assert c.value in y;
    }
    if d.Some? {
      assert d.value in x;
    }
  }

  // The order of the sort, refined by the source index

  predicate BySource(c: Cycle, d: Cycle) { ToReal(c.source) < ToReal(d.source) }

  lemma {:induction false} OrderStrict(before: (Text, Text) -> bool)
    requires Collation(before)
    ensures Sorting.StrictOrder(Order(before))
  {
  }

  lemma {:induction false} CandidatesOrdered(w: Window, h: seq<Source>, n: nat)
    requires n <= |h| && IndexOrdered(h)
    ensures Sorting.Sorted(BySource, Candidates(w, h[..n]))
    ensures forall c :: c in Candidates(w, h[..n]) ==> exists i :: 0 <= i < n && c.source == h[i].index
  {
    if n > 0 {
      CandidatesOrdered(w, h, n - 1);
      CandidatesStep(w, h, n - 1);
      var p, q := Candidates(w, h[..n - 1]), InWindow(w, h[n - 1].body.history, h[n - 1].index);
      forall c | c in q
        ensures c.source == h[n - 1].index
      {
      }
      forall i, j | 0 <= i < j < |p + q|
        ensures !BySource((p + q)[j], (p + q)[i])
      {
        if i < |p| {
          assert p[i] in p;
        } else {
          assert q[i - |p|] in q;
        }
        if j >= |p| {
          assert q[j - |p|] in q;
        }
      }
    }
  }

  lemma {:induction false} DedupeOrdered(cs: seq<Cycle>)
    requires Sorting.Sorted(BySource, cs)
    ensures Sorting.Sorted(BySource, Dedupe(cs))
    ensures forall c :: c in Dedupe(cs) ==> c in cs
  {
    if cs != [] {
      var n := |cs| - 1;
      var d := Dedupe(cs[..n]);
      DedupeOrdered(cs[..n]);
      forall i | 0 <= i < |d|
        ensures !BySource(cs[n], d[i])
      {
        assert d[i] in cs[..n];
        var j :| 0 <= j < n && cs[j] == d[i];
      }
    }
  }

  /** A kept cycle is fresh in the source it is attributed to. */
  lemma {:induction false} KeptIsFresh(w: Window, h: seq<Source>, n: nat, c: Cycle) returns (i: nat)
    requires n <= |h| && FirstOf(Candidates(w, h[..n]), IdentityOf(c)) == Some(c)
    ensures i < n && Fresh(w, h, i, c) && c.source == h[i].index
  {
    hide Candidates, FirstOf, InWindow, IdentityOf, Identities;
    if n == 0 {
      NothingListed(w, h, IdentityOf(c));
    } else {
      var p, q := Candidates(w, h[..n - 1]), InWindow(w, h[n - 1].body.history, h[n - 1].index);
      CandidatesStep(w, h, n - 1);
      assert h[..n - 1 + 1] == h[..n];
      FirstOfConcat(p, q, IdentityOf(c));
      if FirstOf(p, IdentityOf(c)).Some? {
        i := KeptIsFresh(w, h, n - 1, c);
      } else {
        i := n - 1;
        FirstInLast(p, q, c);
        ListedSource(w, h[n - 1], c);
      }
    }
  }

  lemma {:induction false} NothingListed(w: Window, h: seq<Source>, k: Identity)
    ensures FirstOf(Candidates(w, h[..0]), k) == None
  {
  }

  lemma {:induction false} FirstInLast(p: seq<Cycle>, q: seq<Cycle>, c: Cycle)
    requires FirstOf(q, IdentityOf(c)) == Some(c) && FirstOf(p, IdentityOf(c)).None?
    ensures c in q && IdentityOf(c) !in Identities(p)
  {
  }

  lemma {:induction false} ListedSource(w: Window, s: Source, c: Cycle)
    requires c in InWindow(w, s.body.history, s.index)
    ensures c.source == s.index
  {
  }

  lemma {:induction false} KeptDiffer(before: (Text, Text) -> bool, w: Window, h: seq<Source>, x: Cycle, y: Cycle)
    requires Collation(before) && IndexOrdered(h) && Unambiguous(before, w, h) && x != y
    requires FirstOf(Candidates(w, h[..|h|]), IdentityOf(x)) == Some(x)
    requires FirstOf(Candidates(w, h[..|h|]), IdentityOf(y)) == Some(y)
    ensures Tied(before, x, y) ==> BySource(x, y) || BySource(y, x)
  {
    if Tied(before, x, y) {
      var i := KeptIsFresh(w, h, |h|, x);
      var j := KeptIsFresh(w, h, |h|, y);
      assert i != j;
      assert i < j || j < i;
    }
  }

  lemma {:induction false} KeptSeparated(before: (Text, Text) -> bool, w: Window, h: seq<Source>)
    requires Collation(before) && IndexOrdered(h) && Unambiguous(before, w, h)
    ensures Sorting.Separated(Sorting.Lex(Order(before), BySource), Dedupe(Candidates(w, h)))
  {
    var d := Dedupe(Candidates(w, h));
    DedupeKeepsFirst(Candidates(w, h));
    assert h[..|h|] == h;
    forall x, y | x in d && y in d && x != y
      ensures Sorting.Lex(Order(before), BySource)(x, y) || Sorting.Lex(Order(before), BySource)(y, x)
    {
      KeptDiffer(before, w, h, x, y);
    }
  }

  /** Relisting the entries of unambiguous history bodies leaves the closed cycles as they are. */
  lemma {:induction false} RelistingIrrelevant(before: (Text, Text) -> bool, w: Window, a: seq<Source>, b: seq<Source>)
    requires Collation(before) && IndexOrdered(a) && Relisted(a, b) && Unambiguous(before, w, a)
    ensures ClosedCycles(before, w, a) == ClosedCycles(before, w, b)
  {
    var x, y := Dedupe(Candidates(w, a)), Dedupe(Candidates(w, b));
    var less := Sorting.Lex(Order(before), BySource);
    assert a[..|a|] == a && b[..|b|] == b;
    DedupeKeepsFirst(Candidates(w, a));
    DedupeKeepsFirst(Candidates(w, b));
    forall c
      ensures c in x <==> c in y
    {
      FirstRelisted(before, w, a, b, |a|, IdentityOf(c));
    }
    SameOnce(x, y);
    CandidatesOrdered(w, a, |a|);
    CandidatesOrdered(w, b, |b|);
    DedupeOrdered(Candidates(w, a));
    DedupeOrdered(Candidates(w, b));
    OrderStrict(before);
    Sorting.LexStrict(Order(before), BySource);
    KeptSeparated(before, w, a);
    Sorting.SortPermutation(less, x, y);
    Sorting.SortStable(Order(before), BySource, x);
    Sorting.SortStable(Order(before), BySource, y);
  }

  // The converse: an ambiguous body can be relisted so that the cycles change

  /** The same sources, the body of source `i` listing `es`. */
  function Listing(h: seq<Source>, i: nat, es: seq<Closed>): (r: seq<Source>)
    requires i < |h|
    ensures |r| == |h|
  {
    h[i := h[i].(body := h[i].body.(history := es))]
  }

  lemma {:induction false} InWindowConcat(w: Window, a: seq<Closed>, b: seq<Closed>, x: Number)
    ensures InWindow(w, a + b, x) == InWindow(w, a, x) + InWindow(w, b, x)
  {
    if b == [] {
      assert a + b == a;
    } else {
      var n := |b| - 1;
      assert (a + b)[..|a| + n] == a + b[..n];
      InWindowConcat(w, a, b[..n], x);
    }
  }

  lemma {:induction false} CandidatesPrefix(w: Window, h: seq<Source>, n: nat)
    requires n <= |h|
    ensures Candidates(w, h[..n]) <= Candidates(w, h)
    decreases |h|
  {
    if n == |h| {
      assert h[..n] == h;
    } else {
      var m := |h| - 1;
      assert h[..m][..n] == h[..n];
      CandidatesPrefix(w, h[..m], n);
    }
  }

  /** With `e` and `f` at the front of body `i`, the candidates go: everything earlier, `c`, `d`. */
  lemma {:induction false} FrontCandidates(w: Window, h: seq<Source>, i: nat, e: Closed, f: Closed, rest: seq<Closed>)
    requires i < |h| && w.Contains(e.exitMs) && w.Contains(f.exitMs)
    ensures var c, d := WithSource(e, h[i].index), WithSource(f, h[i].index);
      Candidates(w, h[..i]) + [c, d] <= Candidates(w, Listing(h, i, [e, f] + rest))
  {
    var g := Listing(h, i, [e, f] + rest);
    var c, d := WithSource(e, h[i].index), WithSource(f, h[i].index);
    assert g[..i] == h[..i];
    CandidatesStep(w, g, i);
    InWindowConcat(w, [e, f], rest, h[i].index);
    assert [e, f][..1] == [e] && [e][..0] == [];
    assert InWindow(w, [e], h[i].index) == [c];
    assert InWindow(w, [e, f], h[i].index) == [c, d];
    CandidatesPrefix(w, g, i + 1);
  }

  /** Same sources, each history body listing the same entries as often, in any order. */
  ghost predicate Reordered(a: seq<Source>, b: seq<Source>) {
    |a| == |b| && forall i :: 0 <= i < |a| ==>
      a[i].index == b[i].index && multiset(a[i].body.history) == multiset(b[i].body.history)
  }

  lemma {:induction false} ReorderedRelisted(a: seq<Source>, b: seq<Source>)
    requires Reordered(a, b)
    ensures Relisted(a, b)
  {
    forall i, e | 0 <= i < |a|
      ensures e in a[i].body.history <==> e in b[i].body.history
    {
      assert e in a[i].body.history <==> e in multiset(a[i].body.history);
      assert e in b[i].body.history <==> e in multiset(b[i].body.history);
    }
  }

  lemma {:induction false} Without(s: seq<Closed>, e: Closed) returns (t: seq<Closed>)
    requires e in s
    ensures multiset(s) == multiset(t) + multiset{e}
  {
    var i :| 0 <= i < |s| && s[i] == e;
    t := s[..i] + s[i + 1..];
    assert s == s[..i] + [e] + s[i + 1..];
  }

  /** What a list holds besides two different entries of it. */
  lemma {:induction false} Besides(s: seq<Closed>, e: Closed, f: Closed) returns (rest: seq<Closed>)
    requires e in s && f in s && e != f
    ensures multiset([e, f] + rest) == multiset(s) && multiset([f, e] + rest) == multiset(s)
  {
    var t := Without(s, e);
    assert f in multiset(t) by {
      assert f in multiset(s);
    }
    rest := Without(t, f);
  }

  lemma {:induction false} DedupePair(p: seq<Cycle>, c: Cycle, d: Cycle)
    requires IdentityOf(c) !in Identities(p) && IdentityOf(d) !in Identities(p)
    ensures Dedupe(p + [c, d]) == Dedupe(p) + if IdentityOf(c) == IdentityOf(d) then [c] else [c, d]
  {
    hide Dedupe, IdentityOf;
    DedupeSnoc(p, c);
    DedupeSnoc(p + [c], d);
    assert (p + [c]) + [d] == p + [c, d];
    assert Identities(p + [c]) == Identities(p) + {IdentityOf(c)};
  }

  lemma {:induction false} DedupeSnoc(p: seq<Cycle>, c: Cycle)
    ensures Dedupe(p + [c]) == Dedupe(p) + if IdentityOf(c) in Identities(p) then [] else [c]
  {
    hide IdentityOf;
    assert (p + [c])[..|p|] == p;
  }

  /** After `p`, which lists neither identity, come `c` and `d`. */
  lemma {:induction false} KeptAfter(p: seq<Cycle>, c: Cycle, d: Cycle, cs: seq<Cycle>)
    requires p + [c, d] <= cs
    requires IdentityOf(c) !in Identities(p) && IdentityOf(d) !in Identities(p)
    ensures IdentityOf(c) == IdentityOf(d) ==> c in Dedupe(cs) && (d in Dedupe(cs) ==> d == c)
    ensures IdentityOf(c) != IdentityOf(d) ==> Sorting.Precedes(Dedupe(cs), c, d)
  {
    var k, j := |p|, |Dedupe(p)|;
    DedupePair(p, c, d);
    assert cs == p + [c, d] + cs[k + 2..];
    DedupePrefix(p + [c, d], cs[k + 2..]);
    var r := Dedupe(cs);
    assert r[j] == c;
    if IdentityOf(c) != IdentityOf(d) {
      assert r[j + 1] == d;
    } else {
      DedupeKeepsFirst(cs);
    }
  }

  lemma {:induction false} NeverBoth(s: seq<Cycle>, c: Cycle, d: Cycle)
    requires c != d && Sorting.Precedes(s, c, d) && Sorting.Precedes(s, d, c)
    ensures exists i, j :: 0 <= i < j < |s| && s[i] == s[j]
  {
    var i, j :| 0 <= i < j < |s| && s[i] == c && s[j] == d;
    var k, l :| 0 <= k < l < |s| && s[k] == d && s[l] == c;
    if i == l {
      assert k < j && s[k] == s[j];
    } else if i < l {
      assert s[i] == s[l];
    } else {
      assert s[l] == s[i];
    }
  }

  lemma {:induction false} SortedOnce(before: (Text, Text) -> bool, cs: seq<Cycle>, i: nat, j: nat)
    requires DistinctIdentities(cs) && i < j < |Sorting.Sort(Order(before), cs)|
    ensures Sorting.Sort(Order(before), cs)[i] != Sorting.Sort(Order(before), cs)[j]
  {
    var s := Sorting.Sort(Order(before), cs);
    Sorting.CountedOnce(cs);
    if s[i] == s[j] {
      Sorting.SameElements(s, cs);
      Sorting.CountedTwice(s, i, j);
    }
  }

  /** Whichever of two different tied fresh cycles is listed first decides the outcome. */
  lemma {:induction false} AmbiguousMatters(before: (Text, Text) -> bool, w: Window, h: seq<Source>, i: nat,
      e: Closed, f: Closed, rest: seq<Closed>)
    requires i < |h| && w.Contains(e.exitMs) && w.Contains(f.exitMs)
    requires Fresh(w, h, i, WithSource(e, h[i].index)) && Fresh(w, h, i, WithSource(f, h[i].index))
    requires Tied(before, WithSource(e, h[i].index), WithSource(f, h[i].index)) && e != f
    ensures ClosedCycles(before, w, Listing(h, i, [e, f] + rest))
         != ClosedCycles(before, w, Listing(h, i, [f, e] + rest))
  {
    var c, d := WithSource(e, h[i].index), WithSource(f, h[i].index);
    var p := Candidates(w, h[..i]);
    var ps, qs := Candidates(w, Listing(h, i, [e, f] + rest)), Candidates(w, Listing(h, i, [f, e] + rest));
    var x, y := Dedupe(ps), Dedupe(qs);
    FrontCandidates(w, h, i, e, f, rest);
    FrontCandidates(w, h, i, f, e, rest);
    KeptAfter(p, c, d, ps);
    KeptAfter(p, d, c, qs);
    var s, t := Sorting.Sort(Order(before), x), Sorting.Sort(Order(before), y);
    if IdentityOf(c) == IdentityOf(d) {
      Sorting.SameElements(s, x);
      Sorting.SameElements(t, y);
      assert c in s && c !in t;
    } else {
      KeepsPair(before, x, c, d);
      KeepsPair(before, y, d, c);
      if s == t {
        DedupeKeepsFirst(ps);
        NeverBoth(s, c, d);
        var k, l :| 0 <= k < l < |s| && s[k] == s[l];
        SortedOnce(before, x, k, l);
      }
    }
  }

  lemma {:induction false} KeepsPair(before: (Text, Text) -> bool, cs: seq<Cycle>, c: Cycle, d: Cycle)
    requires Sorting.Precedes(cs, c, d) && Tied(before, c, d)
    ensures Sorting.Precedes(Sorting.Sort(Order(before), cs), c, d)
  {
    var i, j :| 0 <= i < j < |cs| && cs[i] == c && cs[j] == d;
    Sorting.SortKeepsOrder(Order(before), cs, i, j);
  }

  lemma {:induction false} AmbiguousPair(before: (Text, Text) -> bool, w: Window, h: seq<Source>)
      returns (i: nat, e: Closed, f: Closed)
    requires !Unambiguous(before, w, h)
    ensures i < |h| && e in h[i].body.history && f in h[i].body.history && e != f
    ensures w.Contains(e.exitMs) && w.Contains(f.exitMs)
    ensures Fresh(w, h, i, WithSource(e, h[i].index)) && Fresh(w, h, i, WithSource(f, h[i].index))
    ensures Tied(before, WithSource(e, h[i].index), WithSource(f, h[i].index))
  {
    var j, c, d :| 0 <= j < |h| && Fresh(w, h, j, c) && Fresh(w, h, j, d) && Tied(before, c, d) && c != d;
    hide Tied, Candidates;
    i := j;
    e :| e in h[i].body.history && w.Contains(e.exitMs) && c == WithSource(e, h[i].index);
    f :| f in h[i].body.history && w.Contains(f.exitMs) && d == WithSource(f, h[i].index);
  }

  lemma {:induction false} AmbiguousReorders(before: (Text, Text) -> bool, w: Window, h: seq<Source>)
      returns (g: seq<Source>)
    requires !Unambiguous(before, w, h)
    ensures Reordered(h, g) && ClosedCycles(before, w, g) != ClosedCycles(before, w, h)
  {
    hide Unambiguous, Fresh, Tied, ClosedCycles, WithSource;
    var i, e, f := AmbiguousPair(before, w, h);
    var rest := Besides(h[i].body.history, e, f);
    AmbiguousMatters(before, w, h, i, e, f, rest);
    ListingReorders(h, i, [e, f] + rest);
    ListingReorders(h, i, [f, e] + rest);
    hide Reordered;
    var x, y := Listing(h, i, [e, f] + rest), Listing(h, i, [f, e] + rest);
    g := if ClosedCycles(before, w, x) != ClosedCycles(before, w, h) then x else y;
  }

  lemma {:induction false} ListingReorders(h: seq<Source>, i: nat, es: seq<Closed>)
    requires i < |h| && multiset(es) == multiset(h[i].body.history)
    ensures Reordered(h, Listing(h, i, es))
  {
  }

  /** The cycles are independent of how history bodies list their entries exactly when the bodies are
      unambiguous; it makes no difference whether relisting may repeat entries or only reorder them. */
  lemma {:induction false} ListingIrrelevantExactly(before: (Text, Text) -> bool, w: Window, h: seq<Source>)
    requires Collation(before) && IndexOrdered(h)
    ensures Unambiguous(before, w, h) <==>
            forall g :: Relisted(h, g) ==> ClosedCycles(before, w, g) == ClosedCycles(before, w, h)
    ensures Unambiguous(before, w, h) <==>
            forall g :: Reordered(h, g) ==> ClosedCycles(before, w, g) == ClosedCycles(before, w, h)
  {
    hide Unambiguous, IndexOrdered, ClosedCycles, Relisted, Reordered, Collation;
    if Unambiguous(before, w, h) {
      forall g | Relisted(h, g) || Reordered(h, g)
        ensures ClosedCycles(before, w, g) == ClosedCycles(before, w, h)
      {
        if Reordered(h, g) {
          ReorderedRelisted(h, g);
        }
        RelistingIrrelevant(before, w, h, g);
      }
    } else {
      var g := AmbiguousReorders(before, w, h);
      ReorderedRelisted(h, g);
    }
  }

  // Up to the list of sources

  /** Sources with the same fields, except that history bodies may be relisted. */
  ghost predicate SameEvidence(a: Source, b: Source) {
    && b == a.(body := b.body) && b.body == a.body.(history := b.body.history)
    && (a.endpoint != History ==> a == b)
    && forall e :: e in a.body.history <==> e in b.body.history
  }

  ghost predicate SameListed(a: seq<Source>, b: seq<Source>) {
    |a| == |b| && forall i :: 0 <= i < |a| ==> SameEvidence(a[i], b[i])
  }

  lemma {:induction false} SameConcat(a: seq<Source>, b: seq<Source>, x: seq<Source>, y: seq<Source>)
    requires SameListed(a, b) && SameListed(x, y)
    ensures SameListed(a + x, b + y)
  {
  }

  lemma {:induction false} SameFields(x: Source, y: Source)
    requires SameEvidence(x, y)
    ensures x.index == y.index && x.endpoint == y.endpoint && x.usable == y.usable
    ensures SameListed([x], [y])
  {
  }

  lemma {:induction false} MatchingSame(a: seq<Source>, b: seq<Source>, e: Endpoint)
    requires SameListed(a, b)
    ensures SameListed(Matching(a, e), Matching(b, e))
  {
    if a != [] {
      var n := |a| - 1;
      MatchingSame(a[..n], b[..n], e);
      SameFields(a[n], b[n]);
      SameConcat(Matching(a[..n], e), Matching(b[..n], e), [a[n]], [b[n]]);
    }
  }

  lemma {:induction false} InsertSame(x: Source, y: Source, a: seq<Source>, b: seq<Source>)
    requires SameEvidence(x, y) && SameListed(a, b)
    ensures SameListed(Sorting.Insert(ByIndex, x, a), Sorting.Insert(ByIndex, y, b))
  {
    SameFields(x, y);
    if a == [] || !ByIndex(a[0], x) {
      if a != [] {
        SameFields(a[0], b[0]);
      }
      SameConcat([x], [y], a, b);
    } else {
      SameFields(a[0], b[0]);
      InsertSame(x, y, a[1..], b[1..]);
      SameConcat([a[0]], [b[0]], Sorting.Insert(ByIndex, x, a[1..]), Sorting.Insert(ByIndex, y, b[1..]));
    }
  }

  lemma {:induction false} SortSame(a: seq<Source>, b: seq<Source>)
    requires SameListed(a, b)
    ensures SameListed(Sorting.Sort(ByIndex, a), Sorting.Sort(ByIndex, b))
  {
    if a != [] {
      SortSame(a[1..], b[1..]);
      InsertSame(a[0], b[0], Sorting.Sort(ByIndex, a[1..]), Sorting.Sort(ByIndex, b[1..]));
    }
  }

  lemma {:induction false} UsableSame(a: seq<Source>, b: seq<Source>, e: Endpoint)
    requires SameListed(a, b)
    ensures SameListed(Usable(a, e), Usable(b, e)) && (e != History ==> Usable(a, e) == Usable(b, e))
  {
    MatchingSame(a, b, e);
    SortSame(Matching(a, e), Matching(b, e));
    if e != History {
      NothingRelisted(Usable(a, e), Usable(b, e), Matching(a, e), e);
    }
  }

  lemma {:induction false} NothingRelisted(x: seq<Source>, y: seq<Source>, m: seq<Source>, e: Endpoint)
    requires SameListed(x, y) && multiset(x) == multiset(m) && e != History
    requires forall s :: s in m ==> s.endpoint == e
    ensures x == y
  {
    forall i | 0 <= i < |x|
      ensures x[i] == y[i]
    {
      Sorting.SameElement(x, m, x[i]);
    }
  }

  lemma {:induction false} UsableOrdered(s: seq<Source>, e: Endpoint)
    requires DistinctIndices(s)
    ensures IndexOrdered(Usable(s, e))
  {
    hide Sorting.Sort, Matching;
    var m, u := Matching(s, e), Usable(s, e);
    Sorting.SortSorted(ByIndex, m);
    MatchingDistinct(s, e);
    Sorting.CountedOnce(m);
    Sorting.SameElements(u, m);
    forall i, j | 0 <= i < j < |u|
      ensures ToReal(u[i].index) < ToReal(u[j].index)
    {
      assert !ByIndex(u[j], u[i]);
      assert u[i] in m && u[j] in m;
      var k :| 0 <= k < |m| && m[k] == u[i];
      var l :| 0 <= l < |m| && m[l] == u[j];
      if u[i] == u[j] {
        Sorting.CountedTwice(u, i, j);
      }
      assert k < l || l < k;
    }
  }

  lemma {:induction false} MatchingDistinct(s: seq<Source>, e: Endpoint)
    requires DistinctIndices(s)
    ensures DistinctIndices(Matching(s, e))
  {
    if s != [] {
      var n := |s| - 1;
      var m := Matching(s[..n], e);
      MatchingDistinct(s[..n], e);
      forall i | 0 <= i < |m|
        ensures ToReal(m[i].index) != ToReal(s[n].index)
      {
        assert m[i] in s[..n];
        var j :| 0 <= j < n && s[j] == m[i];
      }
    }
  }

  lemma {:induction false} SameListedRelisted(x: seq<Source>, y: seq<Source>)
    requires SameListed(x, y)
    ensures Relisted(x, y) && Indices(x) == Indices(y)
  {
  }

  /** Relisting the entries of unambiguous history responses changes no metric and no claim. */
  lemma {:induction false} EntryOrderIrrelevant(before: (Text, Text) -> bool, w: Window, a: seq<Source>, b: seq<Source>)
    requires Collation(before) && DistinctIndices(a) && SameListed(a, b)
    requires Unambiguous(before, w, Usable(a, History))
    ensures MetricsOf(before, w, a) == MetricsOf(before, w, b)
    ensures ClaimsOf(MetricsOf(before, w, a)) == ClaimsOf(MetricsOf(before, w, b))
  {
    hide Usable, MetricsOfCycles, ClaimsOf, ClosedCycles, Collation, Unambiguous;
    UsableSame(a, b, History);
    UsableSame(a, b, Trades);
    UsableSame(a, b, TokenSecurity);
    UsableSame(a, b, Funding);
    UsableOrdered(a, History);
    var x, y := Usable(a, History), Usable(b, History);
    SameListedRelisted(x, y);
    RelistingIrrelevant(before, w, x, y);
  }

  // A missing entry date ties with one at the epoch, and that is visible in a claim

  // Three closed trades of one asset: -5, then +10 without an entry date and -20 entered at the epoch.
  const FIRST := Closed([97], Some(1.0), 2.0, -5.0, 0.0, 1.0)
  const UNDATED := Closed([97], None, 3.0, 10.0, 0.0, 1.0)
  const EPOCH := Closed([97], Some(0.0), 3.0, -20.0, 0.0, 1.0)

  function OneSource(entries: seq<Closed>): Source {
    Source(Zero(false), History, true, Body(entries, [], Security(None, None, false), None))
  }

  lemma {:induction false} ThreeCandidates(w: Window, a: Closed, b: Closed, c: Closed)
    requires w.Contains(a.exitMs) && w.Contains(b.exitMs) && w.Contains(c.exitMs)
    ensures Candidates(w, [OneSource([a, b, c])])
         == [WithSource(a, Zero(false)), WithSource(b, Zero(false)), WithSource(c, Zero(false))]
  {
    var z, es := Zero(false), [a, b, c];
    assert es[..2] == [a, b] && [a, b][..1] == [a] && [a][..0] == [];
    assert InWindow(w, [a], z) == [WithSource(a, z)];
    assert InWindow(w, [a, b], z) == [WithSource(a, z), WithSource(b, z)];
    assert [OneSource(es)][..0] == [];
  }

  lemma {:induction false} ThreeKept(x: Cycle, y: Cycle, u: Cycle)
    requires IdentityOf(x) != IdentityOf(y) && IdentityOf(x) != IdentityOf(u) && IdentityOf(y) != IdentityOf(u)
    ensures Dedupe([x, y, u]) == [x, y, u]
  {
    assert [x, y, u] == [x] + [y, u];
    assert [x][..0] == [];
    assert Dedupe([x]) == [x];
    assert Identities([x]) == {IdentityOf(x)};
    DedupePair([x], y, u);
  }

  lemma {:induction false} ThreeSorted(before: (Text, Text) -> bool, a: Closed, b: Closed, c: Closed)
    requires Collation(before)
    requires a.exitMs == 2.0 && b.exitMs == 3.0 && c.exitMs == 3.0 && b.asset == c.asset && b.entryMs != c.entryMs
    requires EntryKey(WithSource(b, Zero(false))) == EntryKey(WithSource(c, Zero(false)))
    ensures ClosedCycles(before, Window(0.0, 9.0), [OneSource([a, b, c])])
         == [WithSource(a, Zero(false)), WithSource(b, Zero(false)), WithSource(c, Zero(false))]
  {
    var w, z := Window(0.0, 9.0), Zero(false);
    var x, y, u := WithSource(a, z), WithSource(b, z), WithSource(c, z);
    ThreeCandidates(w, a, b, c);
    ThreeKept(x, y, u);
    assert Sorting.Sorted(Order(before), [x, y, u]);
    Sorting.SortIdempotent(Order(before), [x, y, u]);
  }

  /** The measured drawdown of one history response, in cents. */
  function MeasuredDrawdown(before: (Text, Text) -> bool, entries: seq<Closed>): Option<int> {
    MetricsFrom(before, Window(0.0, 9.0), [OneSource(entries)], [], [], []).drawdown
  }

  /** The largest fall of three results in a row. */
  function FallOfThree(x: real, y: real, u: real): real {
    Max(Max(Max(0.0, Max(0.0, x) - x), Max(Max(0.0, x), x + y) - (x + y)),
        Max(Max(Max(0.0, x), x + y), x + y + u) - (x + y + u))
  }

  lemma {:induction false} DrawdownOfThree(x: Cycle, y: Cycle, u: Cycle)
    ensures Drawdown(Pnls([x, y, u]), 3) == FallOfThree(x.pnl, y.pnl, u.pnl)
  {
    var p := Pnls([x, y, u]);
    assert Sum(p, 1) == x.pnl && Sum(p, 2) == x.pnl + y.pnl && Sum(p, 3) == x.pnl + y.pnl + u.pnl;
    assert Peak(p, 1) == Max(0.0, x.pnl) && Peak(p, 2) == Max(Max(0.0, x.pnl), x.pnl + y.pnl);
    assert Drawdown(p, 1) == Max(0.0, Max(0.0, x.pnl) - x.pnl);
  }

  lemma {:induction false} ThreeMeasured(before: (Text, Text) -> bool, a: Closed, b: Closed, c: Closed)
    requires Collation(before)
    requires a.exitMs == 2.0 && b.exitMs == 3.0 && c.exitMs == 3.0 && b.asset == c.asset && b.entryMs != c.entryMs
    requires EntryKey(WithSource(b, Zero(false))) == EntryKey(WithSource(c, Zero(false)))
    ensures MeasuredDrawdown(before, [a, b, c]) == Some(Round(FallOfThree(a.pnl, b.pnl, c.pnl), 2))
  {
    var x, y, u := WithSource(a, Zero(false)), WithSource(b, Zero(false)), WithSource(c, Zero(false));
    ThreeSorted(before, a, b, c);
    DrawdownOfThree(x, y, u);
  }

  lemma {:induction false} Falls()
    ensures Round(FallOfThree(-5.0, 10.0, -20.0), 2) == 2_000
    ensures Round(FallOfThree(-5.0, -20.0, 10.0), 2) == 2_500
  {
    PowersOfTen();
  }

  /** The same three entries in two orders, one exit instant, one entry date missing and one at the
      epoch: the drawdown comes out as 20 dollars or as 25. */
  lemma {:induction false} EpochTieChangesDrawdown(before: (Text, Text) -> bool)
    requires Collation(before)
    ensures MeasuredDrawdown(before, [FIRST, UNDATED, EPOCH]) == Some(2_000)
    ensures MeasuredDrawdown(before, [FIRST, EPOCH, UNDATED]) == Some(2_500)
  {
    ThreeMeasured(before, FIRST, UNDATED, EPOCH);
    ThreeMeasured(before, FIRST, EPOCH, UNDATED);
    Falls();
  }
}
