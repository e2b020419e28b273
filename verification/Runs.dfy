/** Runs of a state machine: what follows from any number of steps, whatever the machine. */
module Runs {
  import opened Utf

  /** The state after the first `n` events of a run; `None` when one of them could not happen. */
  function After<S, E>(next: (S, E) -> Option<S>, start: S, es: seq<E>, n: nat): Option<S>
    requires n <= |es|
  {
    if n == 0 then Some(start)
    else
      match After(next, start, es, n - 1)
      case None => None
      case Some(s) => next(s, es[n - 1])
  }

  lemma {:induction false} Happened<S, E>(next: (S, E) -> Option<S>, start: S, es: seq<E>, m: nat, n: nat)
    requires m <= n <= |es| && After(next, start, es, n).Some?
    ensures After(next, start, es, m).Some?
  {
    if m < n {
      Happened(next, start, es, m, n - 1);
    }
  }

  /** The state after a step is the step of the state before. */
  lemma {:induction false} OneStep<S, E>(next: (S, E) -> Option<S>, start: S, es: seq<E>, n: nat)
    requires n < |es| && After(next, start, es, n + 1).Some?
    ensures After(next, start, es, n).Some?
    ensures After(next, start, es, n + 1) == next(After(next, start, es, n).value, es[n])
  {
  }

  lemma {:induction false} Prefix<S, E>(next: (S, E) -> Option<S>, start: S, es: seq<E>, e: E, n: nat)
    requires n <= |es|
    ensures After(next, start, es + [e], n) == After(next, start, es, n)
  {
    if n > 0 {
      Prefix(next, start, es, e, n - 1);
      assert (es + [e])[n - 1] == es[n - 1];
    }
  }

  lemma {:induction false} Extend<S, E>(next: (S, E) -> Option<S>, start: S, es: seq<E>, s: S, e: E, t: S)
    returns (fs: seq<E>)
    requires After(next, start, es, |es|) == Some(s) && next(s, e) == Some(t)
    ensures fs == es + [e] && After(next, start, fs, |fs|) == Some(t)
  {
    fs := es + [e];
    Prefix(next, start, es, e, |es|);
  }
}
