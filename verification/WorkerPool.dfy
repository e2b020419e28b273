/** The worker pool that sends a plan of requests (`runPlan` in packages/evidence/src/collect.ts).

    Workers share a slot counter, a result list and a progress counter, and give up control only
    while a request is in flight. `Pool` is that shared state; its methods are the stretches of
    code between two awaits. `State` is the same state as a value: a run is any order in which the
    answers may arrive. */
module WorkerPool {
  import opened Utf
  import opened Numbers
  import opened Json
  import opened Canonical
  import opened Evidence
  import Runs

  datatype Request = Request(path: Text, params: seq<Member>)

  /** How one attempt ended, and when. */
  datatype Attempt =
    | Answer(params: Value, fetchedAt: Text, body: Value)
    | Refusal(reason: Text, status: Option<Number>, at: Text)

  /** What a worker stores for a request. */
  function Record(r: Request, a: Attempt): Collected {
    match a
    case Answer(params, fetchedAt, body) => Collected(r.path, params, fetchedAt, Fetched(body))
    case Refusal(reason, status, at) => Collected(r.path, Obj(Entries(r.params)), at, Failed(reason, status))
  }

  datatype Worker = Waiting(slot: nat) | Returned

  /** `requests` and `progress` record what the outside world saw: slots as they were requested,
      and the counts reported to `onProgress`. */
  datatype State = State(
    plan: seq<Request>, next: nat, done: nat, results: seq<Option<Collected>>,
    workers: seq<Worker>, requests: seq<nat>, progress: seq<nat>)

  function Min(a: int, b: int): int { if a < b then a else b }
  function Max(a: int, b: int): int { if a < b then b else a }

  /** How many workers `buildEvidence` starts for a plan. */
  function Workers(concurrency: int, plan: seq<Request>): nat {
    Min(Max(1, concurrency), |plan|)
  }

  /** As many workers as asked for, but one at least and no more than there are requests. */
  lemma {:induction false} WorkersExactly(concurrency: int, plan: seq<Request>)
    ensures var k := Workers(concurrency, plan);
      && k <= |plan| && (plan != [] ==> k >= 1) && (k <= concurrency || k <= 1)
      && (k == |plan| || k == concurrency || k == 1)
      && (k == 1 ==> |plan| == 1 || concurrency <= 1)
  {
  }

  // The steps

  /** A worker at the top of its loop: the next slot, or the end of the plan. */
  function Take(s: State, w: nat): State
    requires w < |s.workers|
  {
    if s.next < |s.plan| then
      s.(next := s.next + 1, workers := s.workers[w := Waiting(s.next)], requests := s.requests + [s.next])
    else
      s.(next := s.next + 1, workers := s.workers[w := Returned])
  }

  /** The first `k` workers have been started. */
  function Started(plan: seq<Request>, total: nat, k: nat): (s: State)
    requires k <= total
    ensures |s.workers| == total
  {
    if k == 0 then State(plan, 0, 0, seq(|plan|, _ => None), seq(total, _ => Returned), [], [])
    else Take(Started(plan, total, k - 1), k - 1)
  }

  predicate CanResume(s: State, w: nat) {
    w < |s.workers| && s.workers[w].Waiting? && s.workers[w].slot < |s.plan| == |s.results|
  }

  /** The answer to a worker's request arrives: it is stored and counted. */
  function Store(s: State, w: nat, a: Attempt): State
    requires CanResume(s, w)
  {
    var slot := s.workers[w].slot;
    s.(results := s.results[slot := Some(Record(s.plan[slot], a))], done := s.done + 1,
       progress := s.progress + [s.done + 1])
  }

  /** From one await to the next. */
  function Resume(s: State, w: nat, a: Attempt): State
    requires CanResume(s, w)
  {
    Take(Store(s, w, a), w)
  }

  predicate Finished(s: State) { forall w :: 0 <= w < |s.workers| ==> s.workers[w].Returned? }

  /** `results.filter(r => r !== undefined)` over the first `n` slots. */
  function Collect(rs: seq<Option<Collected>>, n: nat): seq<Collected>
    requires n <= |rs|
  {
    if n == 0 then []
    else if rs[n - 1].Some? then Collect(rs, n - 1) + [rs[n - 1].value]
    else Collect(rs, n - 1)
  }

  // What every step keeps

  function Upto(n: nat): (r: seq<nat>)
    ensures |r| == n && forall i :: 0 <= i < n ==> r[i] == i
  {
    seq(n, i => i)
  }

  /** Workers with a request in flight, among the first `n`. */
  function InFlight(ws: seq<Worker>, n: nat): (k: nat)
    requires n <= |ws|
    ensures k <= n
  {
    if n == 0 then 0 else InFlight(ws, n - 1) + if ws[n - 1].Waiting? then 1 else 0
  }

  function Requested(s: State): nat { Min(s.next, |s.plan|) }

  /** A worker is waiting for slot `i`. */
  ghost predicate Pending(s: State, i: nat) { Waiting(i) in s.workers }

  ghost predicate Counted(s: State) {
    && |s.results| == |s.plan|
    && s.requests == Upto(Requested(s))
    && s.progress == seq(s.done, i => i + 1)
    && InFlight(s.workers, |s.workers|) + s.done == Requested(s)
  }

  ghost predicate Accounted(s: State) {
    && (forall v, w :: 0 <= v < w < |s.workers| && s.workers[v].Waiting? ==> s.workers[v] != s.workers[w])
    && (forall i :: 0 <= i < |s.results| ==> (s.results[i].Some? <==> i < Requested(s) && !Pending(s, i)))
    && (forall w :: 0 <= w < |s.workers| && s.workers[w].Waiting? ==> s.workers[w].slot < Requested(s))
  }

  /** The counters add up, and every requested slot is either filled or waited for by one worker. */
  ghost predicate Valid(s: State) {
    Counted(s) && Accounted(s)
  }

  lemma {:induction false} InFlightUpdate(ws: seq<Worker>, n: nat, w: nat, x: Worker)
    requires n <= |ws| && w < |ws|
    ensures InFlight(ws[w := x], n)
         == InFlight(ws, n) + if w >= n || x.Waiting? == ws[w].Waiting? then 0 else if x.Waiting? then 1 else -1
  {
    if n > 0 {
      InFlightUpdate(ws, n - 1, w, x);
    }
  }

  lemma {:induction false} TakeCounted(s: State, w: nat)
    requires w < |s.workers| && |s.results| == |s.plan| && s.requests == Upto(Requested(s))
    requires s.progress == seq(s.done, i => i + 1)
    requires InFlight(s.workers, |s.workers|) + s.done == Requested(s) + if s.workers[w].Waiting? then 1 else 0
    ensures Counted(Take(s, w))
  {
    var x := if s.next < |s.plan| then Waiting(s.next) else Returned;
    InFlightUpdate(s.workers, |s.workers|, w, x);
  }

  /** As `Accounted`, for a worker `w` whose slot has just been filled. */
  ghost predicate Loose(s: State, w: nat)
    requires w < |s.workers|
  {
    Accounted(s.(workers := s.workers[w := Returned]))
  }

  lemma {:induction false} TakeAccounted(s: State, w: nat)
    requires w < |s.workers| && Loose(s, w) && |s.results| == |s.plan|
    ensures Accounted(Take(s, w))
  {
    var free := s.(workers := s.workers[w := Returned]);
    var t := Take(s, w);
    forall v | 0 <= v < |t.workers| && v != w
      ensures t.workers[v] == free.workers[v]
    {
    }
    forall i | 0 <= i < |t.results|
      ensures Pending(t, i) <==> Pending(free, i) || (i == s.next && s.next < |s.plan|)
    {
      if Pending(t, i) {
        var v :| 0 <= v < |t.workers| && t.workers[v] == Waiting(i);
        assert v != w ==> free.workers[v] in free.workers;
      }
      if Pending(free, i) {
        var v :| 0 <= v < |free.workers| && free.workers[v] == Waiting(i);
        assert t.workers[v] in t.workers;
      }
      assert t.workers[w] in t.workers;
    }
  }

  lemma {:induction false} StoreLoose(s: State, w: nat, a: Attempt)
    requires Valid(s) && CanResume(s, w)
    ensures Loose(Store(s, w, a), w)
  {
    var slot, t := s.workers[w].slot, Store(s, w, a);
    var free := t.(workers := t.workers[w := Returned]);
    forall i | 0 <= i < |s.results|
      ensures Pending(free, i) <==> Pending(s, i) && i != slot
    {
      if Pending(free, i) {
        var v :| 0 <= v < |free.workers| && free.workers[v] == Waiting(i);
        assert s.workers[v] in s.workers;
        assert v < w || w < v;
      }
      if Pending(s, i) && i != slot {
        var v :| 0 <= v < |s.workers| && s.workers[v] == Waiting(i);
        assert free.workers[v] in free.workers;
      }
    }
    assert s.workers[w] in s.workers;
  }

  lemma {:induction false} NobodyWaits(ws: seq<Worker>, n: nat)
    requires n <= |ws| && forall w :: 0 <= w < n ==> ws[w].Returned?
    ensures InFlight(ws, n) == 0
  {
    if n > 0 {
      NobodyWaits(ws, n - 1);
    }
  }

  /** Starting workers, and each arrival of an answer, keep the accounts. */
  lemma {:induction false} StartedValid(plan: seq<Request>, total: nat, k: nat)
    requires k <= total
    ensures Valid(Started(plan, total, k)) && Started(plan, total, k).plan == plan
    ensures forall w :: k <= w < total ==> Started(plan, total, k).workers[w].Returned?
    ensures Started(plan, total, k).next == k && Started(plan, total, k).done == 0
    ensures Started(plan, total, k).results == seq(|plan|, _ => None)
  {
    if k == 0 {
      NobodyWaits(Started(plan, total, 0).workers, total);
    } else {
      var s := Started(plan, total, k - 1);
      hide Accounted, InFlight;
      StartedValid(plan, total, k - 1);
      assert s.(workers := s.workers[k - 1 := Returned]) == s;
      TakeCounted(s, k - 1);
      TakeAccounted(s, k - 1);
    }
  }

  lemma {:induction false} ResumeValid(s: State, w: nat, a: Attempt)
    requires Valid(s) && CanResume(s, w)
    ensures Valid(Resume(s, w, a))
  {
    StoreLoose(s, w, a);
    assert s.results[s.workers[w].slot].None? by {
      assert s.workers[w] in s.workers;
    }
    TakeCounted(Store(s, w, a), w);
    TakeAccounted(Store(s, w, a), w);
  }

  // Runs

  /** An answer arriving at a worker. */
  datatype Arrival = Arrival(worker: nat, attempt: Attempt)

  /** One arrival; `None` when it reaches a worker that has no request in flight. */
  function Step(s: State, e: Arrival): Option<State> {
    if CanResume(s, e.worker) then Some(Resume(s, e.worker, e.attempt)) else None
  }

  /** The state after the first `n` arrivals of a schedule. */
  function After(s: State, es: seq<Arrival>, n: nat): Option<State>
    requires n <= |es|
  {
    Runs.After(Step, s, es, n)
  }

  function Initial(plan: seq<Request>, concurrency: int): State {
    Started(plan, Workers(concurrency, plan), Workers(concurrency, plan))
  }

  /** What has been stored for slot `i` came from answer `answers[i]`. */
  ghost predicate Answered(s: State, answers: map<nat, Attempt>) {
    forall i :: 0 <= i < |s.results| && s.results[i].Some? ==>
      i < |s.plan| && i in answers && s.results[i].value == Record(s.plan[i], answers[i])
  }

  /** The answer each slot received in a schedule. */
  function Answers(s: State, es: seq<Arrival>, n: nat): map<nat, Attempt>
    requires n <= |es|
  {
    if n == 0 then map[]
    else
      match After(s, es, n - 1)
      case None => Answers(s, es, n - 1)
      case Some(t) =>
        if CanResume(t, es[n - 1].worker) then
          Answers(s, es, n - 1)[t.workers[es[n - 1].worker].slot := es[n - 1].attempt]
        else Answers(s, es, n - 1)
  }

  lemma {:induction false} ResumeAnswered(s: State, answers: map<nat, Attempt>, w: nat, a: Attempt)
    requires CanResume(s, w) && Answered(s, answers)
    ensures Answered(Resume(s, w, a), answers[s.workers[w].slot := a])
  {
  }

  /** Under every schedule: each slot is requested once and in order, no more requests are in flight
      than there are workers, progress counts up from 1 without gaps, and one more answer has been
      counted after every arrival. */
  lemma {:induction false} EveryRunKeepsAccounts(plan: seq<Request>, concurrency: int, es: seq<Arrival>, n: nat)
    requires n <= |es| && After(Initial(plan, concurrency), es, n).Some?
    ensures var s := After(Initial(plan, concurrency), es, n).value;
      && Valid(s) && s.plan == plan && s.done == n && |s.workers| == Workers(concurrency, plan)
      && s.requests == Upto(|s.requests|) && |s.requests| == Min(Workers(concurrency, plan) + n, |plan|)
      && s.progress == seq(n, i => i + 1)
      && |s.requests| - s.done == InFlight(s.workers, |s.workers|) <= Min(Max(1, concurrency), |plan|)
      && Answered(s, Answers(Initial(plan, concurrency), es, n))
      && s.next == Workers(concurrency, plan) + n
  {
    var k, s0 := Workers(concurrency, plan), Initial(plan, concurrency);
    if n == 0 {
      StartedValid(plan, k, k);
    } else {
      EveryRunKeepsAccounts(plan, concurrency, es, n - 1);
      var t := After(s0, es, n - 1).value;
      ResumeValid(t, es[n - 1].worker, es[n - 1].attempt);
      ResumeAnswered(t, Answers(s0, es, n - 1), es[n - 1].worker, es[n - 1].attempt);
      hide Accounted, Answered, Record, InFlight, Started;
    }
  }

  lemma {:induction false} SomebodyWaits(ws: seq<Worker>, n: nat)
    requires n <= |ws| && InFlight(ws, n) > 0
    ensures exists w :: 0 <= w < n && ws[w].Waiting?
  {
    if !ws[n - 1].Waiting? {
      SomebodyWaits(ws, n - 1);
    }
  }

  /** The pool finishes exactly when as many answers have arrived as the plan has requests; before
      that some worker is always able to receive one. */
  lemma {:induction false} FinishesAfterThePlan(plan: seq<Request>, concurrency: int, es: seq<Arrival>)
    requires After(Initial(plan, concurrency), es, |es|).Some?
    ensures var s := After(Initial(plan, concurrency), es, |es|).value;
      && |es| <= |plan|
      && (Finished(s) <==> |es| == |plan|)
      && (!Finished(s) ==> exists w :: CanResume(s, w) && forall a :: Step(s, Arrival(w, a)).Some?)
  {
    EveryRunKeepsAccounts(plan, concurrency, es, |es|);
    var s := After(Initial(plan, concurrency), es, |es|).value;
    if Finished(s) {
      NobodyWaits(s.workers, |s.workers|);
    }
    if InFlight(s.workers, |s.workers|) > 0 {
      SomebodyWaits(s.workers, |s.workers|);
      var w :| 0 <= w < |s.workers| && s.workers[w].Waiting?;
      assert CanResume(s, w);
    } else {
      IdleReturned(s.workers, |s.workers|);
    }
  }

  lemma {:induction false} IdleReturned(ws: seq<Worker>, n: nat)
    requires n <= |ws| && InFlight(ws, n) == 0
    ensures forall w :: 0 <= w < n ==> ws[w].Returned?
  {
    if n > 0 {
      IdleReturned(ws, n - 1);
    }
  }

  /** The plan with each request answered by `answers`. */
  function Answering(plan: seq<Request>, answers: map<nat, Attempt>): (r: seq<Collected>)
    requires forall i :: 0 <= i < |plan| ==> i in answers
    ensures |r| == |plan| && forall i :: 0 <= i < |r| ==> r[i] == Record(plan[i], answers[i])
  {
    seq(|plan|, i requires 0 <= i < |plan| => Record(plan[i], answers[i]))
  }

  lemma {:induction false} CollectAll(rs: seq<Option<Collected>>, n: nat, r: seq<Collected>)
    requires n <= |rs| == |r| && forall i :: 0 <= i < |rs| ==> rs[i] == Some(r[i])
    ensures Collect(rs, n) == r[..n]
  {
    if n > 0 {
      CollectAll(rs, n - 1, r);
    }
  }

  /** Whatever the schedule and the number of workers, the list returned is the plan in its own
      order, each request with the answer it received. */
  lemma {:induction false} ReturnsThePlanInOrder(plan: seq<Request>, concurrency: int, es: seq<Arrival>)
    requires After(Initial(plan, concurrency), es, |es|).Some?
    requires Finished(After(Initial(plan, concurrency), es, |es|).value)
    ensures var s := After(Initial(plan, concurrency), es, |es|).value;
      var answers := Answers(Initial(plan, concurrency), es, |es|);
      && (forall i :: 0 <= i < |plan| ==> i in answers)
      && |s.results| == |plan|
      && Collect(s.results, |plan|) == Answering(plan, answers)
      && forall i :: 0 <= i < |plan| ==>
        var r := Collect(s.results, |plan|)[i];
        match answers[i]
        case Answer(params, fetchedAt, body) => r == Collected(plan[i].path, params, fetchedAt, Fetched(body))
        case Refusal(reason, status, at) =>
          r.path == plan[i].path && r.fetchedAt == at && r.outcome == Failed(reason, status)
  {
    var s, answers := After(Initial(plan, concurrency), es, |es|).value, Answers(Initial(plan, concurrency), es, |es|);
    EveryRunKeepsAccounts(plan, concurrency, es, |es|);
    FinishesAfterThePlan(plan, concurrency, es);
    forall i | 0 <= i < |plan|
      ensures s.results[i].Some? && i in answers && s.results[i] == Some(Record(plan[i], answers[i]))
    {
      assert !Pending(s, i);
    }
    CollectAll(s.results, |plan|, Answering(plan, answers));
    assert Answering(plan, answers)[..|plan|] == Answering(plan, answers);
  }

  // The shared state of the source

  class Pool {
    const plan: seq<Request>
    var next: nat
    var done: nat
    const results: array<Option<Collected>>
    var workers: seq<Worker>
    ghost var requests: seq<nat>
    ghost var progress: seq<nat>

    ghost function Abstract(): State
      reads this, results
    {
      State(plan, next, done, results[..], workers, requests, progress)
    }

    constructor (plan: seq<Request>, concurrency: int)
      ensures Abstract() == Initial(plan, concurrency) && fresh(results) && this.plan == plan
    {
      var k := Workers(concurrency, plan);
      this.plan := plan;
      next, done, workers, requests, progress := 0, 0, seq(k, _ => Returned), [], [];
      results := new Option<Collected>[|plan|](_ => None);
      new;
      assert results[..] == seq(|plan|, _ => None);
      for w := 0 to k
        invariant fresh(results) && this.plan == plan && Abstract() == Started(plan, k, w)
      {
        TakeSlot(w);
      }
    }

    /** `const slot = next++`, and the request unless the plan is exhausted. */
    method TakeSlot(w: nat)
      requires w < |workers|
      modifies this
      ensures Abstract() == Take(old(Abstract()), w)
    {
      var slot := next;
      next := next + 1;
      if slot < |plan| {
        workers := workers[w := Waiting(slot)];
        requests := requests + [slot];
      } else {
        workers := workers[w := Returned];
      }
    }

    method Receive(w: nat, a: Attempt)
      requires CanResume(Abstract(), w)
      modifies this, results
      ensures Abstract() == Resume(old(Abstract()), w, a)
    {
      var slot := workers[w].slot;
      results[slot] := Some(Record(plan[slot], a));
      done := done + 1;
      progress := progress + [done];
      assert Abstract() == Store(old(Abstract()), w, a);
      TakeSlot(w);
    }

    /** What the pool resolves to once every worker has returned. */
    method Result() returns (out: seq<Collected>)
      ensures out == Collect(results[..], results.Length)
    {
      out := [];
      for i := 0 to results.Length
        invariant out == Collect(results[..], i)
      {
        if results[i].Some? {
          out := out + [results[i].value];
        }
      }
    }
  }
}
