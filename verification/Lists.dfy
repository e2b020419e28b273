/** Lists by what is kept of them, to say what a loop counts or adds up. */
module Lists {

  /** The elements that satisfy `p`, in their order. */
  function Where<T(!new)>(p: T -> bool, s: seq<T>): (r: seq<T>)
    ensures |r| <= |s| && forall i :: 0 <= i < |r| ==> p(r[i])
  {
    if s == [] then []
    else
      var n := |s| - 1;
      if p(s[n]) then Where(p, s[..n]) + [s[n]] else Where(p, s[..n])
  }

  /** What is kept is what was there and satisfies `p`. */
  lemma {:induction false} WhereMembers<T(!new)>(p: T -> bool, s: seq<T>, x: T)
    ensures x in Where(p, s) <==> x in s && p(x)
  {
    if s != [] {
      var n := |s| - 1;
      WhereMembers(p, s[..n], x);
      assert s == s[..n] + [s[n]];
    }
  }

  lemma {:induction false} WhereStep<T(!new)>(p: T -> bool, s: seq<T>, n: nat)
    requires n < |s|
    ensures Where(p, s[..n + 1]) == Where(p, s[..n]) + if p(s[n]) then [s[n]] else []
  {
    assert s[..n + 1][..n] == s[..n];
  }

  lemma {:induction false} CountStep<T(!new)>(p: T -> bool, s: seq<T>, n: nat)
    requires n < |s|
    ensures |Where(p, s[..n + 1])| == |Where(p, s[..n])| + if p(s[n]) then 1 else 0
  {
    WhereStep(p, s, n);
    hide Where;
  }

  lemma {:induction false} WhereConcat<T(!new)>(p: T -> bool, s: seq<T>, t: seq<T>)
    ensures Where(p, s + t) == Where(p, s) + Where(p, t)
  {
    if t == [] {
      assert s + t == s;
    } else {
      var n := |t| - 1;
      assert (s + t)[..|s| + n] == s + t[..n];
      WhereConcat(p, s, t[..n]);
    }
  }
}
