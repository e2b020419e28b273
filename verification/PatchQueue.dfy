/** The serialised, rate-floored queue of grantee patches (packages/seal/src/queue.ts).

    `PatchQueue` is the queue object; its methods are the stretches of code between two awaits, and
    take the clock as a parameter. `State` is the same queue as a value, with a log of what ran
    when. The clock never goes back, and a sleep lasts at least as long as asked. */
module PatchQueue {
  import opened Utf
  import Runs

  const MIN_GRANTEE_PATCH_INTERVAL_MS := 1_100

  function FloorOf(minIntervalMs: Option<int>): int {
    if minIntervalMs.Some? then minIntervalMs.value else MIN_GRANTEE_PATCH_INTERVAL_MS
  }

  /** When a task ran. */
  datatype Span = Span(task: nat, started: int, finished: int)

  datatype Current = Idle | Sleeping(task: nat, until: int) | Running(task: nat, started: int)

  /** A call of `drain`: the task whose promise was the tail when it was called, if any task had been
      enqueued, and whether its await is over. */
  datatype Waiter = Waiter(awaits: Option<nat>, resolved: bool)

  /** `waiting` is the chain of promises behind the current task. Tasks are numbered as they are
      enqueued; `log` and `notices` record the finished tasks and the depths shown to listeners. */
  datatype State = State(
    minIntervalMs: int, waiting: seq<nat>, pending: int, lastFinishedAt: Option<int>, current: Current,
    enqueued: nat, clock: int, log: seq<Span>, notices: seq<int>, drains: seq<Waiter>)

  function Fresh(minIntervalMs: int, clock: int): State {
    State(minIntervalMs, [], 0, None, Idle, 0, clock, [], [], [])
  }

  /** `waitMs`. */
  function Wait(s: State, now: int): int {
    match s.lastFinishedAt
    case None => 0
    case Some(at) => if s.minIntervalMs - (now - at) > 0 then s.minIntervalMs - (now - at) else 0
  }

  datatype Event =
    | Enqueue(now: int) | Begin(now: int) | Wake(now: int) | Settle(now: int)
    | Drains(now: int) | Resolve(drain: nat, now: int)

  function Enqueued(s: State, now: int): State {
    s.(clock := now, pending := s.pending + 1, notices := s.notices + [s.pending + 1],
       waiting := s.waiting + [s.enqueued], enqueued := s.enqueued + 1)
  }

  function Begun(s: State, now: int): State
    requires s.waiting != []
  {
    var task := s.waiting[0];
    s.(clock := now, waiting := s.waiting[1..],
       current := if Wait(s, now) > 0 then Sleeping(task, now + Wait(s, now)) else Running(task, now))
  }

  function Woken(s: State, now: int): State
    requires s.current.Sleeping?
  {
    s.(clock := now, current := Running(s.current.task, now))
  }

  /** A task resolved or rejected: the floor and the depth are updated either way. */
  function Settled(s: State, now: int): State
    requires s.current.Running?
  {
    s.(clock := now, lastFinishedAt := Some(now), pending := s.pending - 1, notices := s.notices + [s.pending - 1],
       current := Idle, log := s.log + [Span(s.current.task, s.current.started, now)])
  }

  function Draining(s: State, now: int): State {
    s.(clock := now, drains := s.drains + [Waiter(if s.enqueued == 0 then None else Some(s.enqueued - 1), false)])
  }

  /** The promise a `drain` awaits has settled. */
  predicate Over(s: State, d: Waiter) {
    d.awaits.None? || exists i :: 0 <= i < |s.log| && s.log[i].task == d.awaits.value
  }

  function Resolved(s: State, drain: nat, now: int): State
    requires drain < |s.drains|
  {
    s.(clock := now, drains := s.drains[drain := s.drains[drain].(resolved := true)])
  }

  function Next(s: State, e: Event): Option<State> {
    if e.now < s.clock then None
    else
      match e
      case Enqueue(now) => Some(Enqueued(s, now))
      case Begin(now) => if s.current.Idle? && s.waiting != [] then Some(Begun(s, now)) else None
      case Wake(now) => if s.current.Sleeping? && now >= s.current.until then Some(Woken(s, now)) else None
      case Settle(now) => if s.current.Running? then Some(Settled(s, now)) else None
      case Drains(now) => Some(Draining(s, now))
      case Resolve(drain, now) =>
        if drain >= |s.drains| || s.drains[drain].resolved || !Over(s, s.drains[drain]) then None
        else Some(Resolved(s, drain, now))
  }

  // What every step keeps

  /** Tasks that have begun: the finished ones and the current one. */
  function Begins(s: State): nat { |s.log| + if s.current.Idle? then 0 else 1 }

  /** Tasks run in the order they were enqueued. */
  ghost predicate InOrder(s: State) {
    && (forall i :: 0 <= i < |s.log| ==> s.log[i].task == i)
    && (!s.current.Idle? ==> s.current.task == |s.log|)
    && s.enqueued == Begins(s) + |s.waiting|
    && forall i :: 0 <= i < |s.waiting| ==> s.waiting[i] == Begins(s) + i
  }

  function LastFinish(s: State): Option<int> {
    if s.log == [] then None else Some(s.log[|s.log| - 1].finished)
  }

  predicate After(floor: Option<int>, gap: int, started: int) {
    floor.Some? ==> started >= floor.value + gap && started >= floor.value
  }

  /** Every task starts at least the floor after the task before it finished. */
  ghost predicate Spaced(s: State) {
    && s.lastFinishedAt == LastFinish(s)
    && (forall i :: 0 <= i < |s.log| ==> s.log[i].started <= s.log[i].finished <= s.clock)
    && (forall i :: 0 < i < |s.log| ==> After(Some(s.log[i - 1].finished), s.minIntervalMs, s.log[i].started))
    && match s.current
       case Idle => true
       case Sleeping(_, until) => After(LastFinish(s), s.minIntervalMs, until)
       case Running(_, started) => started <= s.clock && After(LastFinish(s), s.minIntervalMs, started)
  }

  /** Depth is what has been enqueued and not finished, and listeners have just been told. */
  ghost predicate Counted(s: State) {
    && s.pending == s.enqueued - |s.log|
    && s.pending == |s.waiting| + (if s.current.Idle? then 0 else 1)
    && (s.notices != [] ==> s.notices[|s.notices| - 1] == s.pending)
    && |s.notices| == s.enqueued + |s.log|
  }

  ghost predicate Inv(s: State) { InOrder(s) && Spaced(s) && Counted(s) }

  lemma {:induction false} NextKeeps(s: State, e: Event)
    requires Inv(s) && Next(s, e).Some?
    ensures Inv(Next(s, e).value) && Next(s, e).value.minIntervalMs == s.minIntervalMs
  {
    NextOrdered(s, e);
    NextSpaced(s, e);
    NextCounted(s, e);
    hide InOrder, Spaced, Counted;
  }

  lemma {:induction false} NextOrdered(s: State, e: Event)
    requires Inv(s) && Next(s, e).Some?
    ensures InOrder(Next(s, e).value)
  {
    hide Spaced, Counted;
  }

  lemma {:induction false} NextSpaced(s: State, e: Event)
    requires Inv(s) && Next(s, e).Some?
    ensures Spaced(Next(s, e).value)
  {
    hide InOrder, Counted;
  }

  lemma {:induction false} NextCounted(s: State, e: Event)
    requires Inv(s) && Next(s, e).Some?
    ensures Counted(Next(s, e).value)
  {
    hide Spaced;
  }

  function Run(s: State, es: seq<Event>, n: nat): Option<State>
    requires n <= |es|
  {
    Runs.After(Next, s, es, n)
  }

  lemma {:induction false} RunKeeps(m: int, clock: int, es: seq<Event>, n: nat)
    requires n <= |es| && Run(Fresh(m, clock), es, n).Some?
    ensures var s := Run(Fresh(m, clock), es, n).value; Inv(s) && s.minIntervalMs == m
  {
    if n > 0 {
      RunKeeps(m, clock, es, n - 1);
      hide Inv, Next;
      NextKeeps(Run(Fresh(m, clock), es, n - 1).value, es[n - 1]);
    }
  }

  /** In every run: one task at a time, in the order enqueued, each starting at least the floor
      after the one before it finished, and the depth is what was enqueued and has not finished. */
  lemma {:induction false} RateFloor(m: int, clock: int, es: seq<Event>)
    requires Run(Fresh(m, clock), es, |es|).Some?
    ensures var s := Run(Fresh(m, clock), es, |es|).value;
      && (forall i :: 0 <= i < |s.log| ==> s.log[i].task == i)
      && (forall i :: 0 < i < |s.log| ==> s.log[i].started >= s.log[i - 1].finished + m)
      && (forall i :: 0 < i < |s.log| ==> s.log[i].started >= s.log[i - 1].finished)
      && (s.current.Running? && s.log != [] ==> s.current.started >= s.log[|s.log| - 1].finished + m)
      && s.pending == s.enqueued - |s.log| >= 0
  {
    RunKeeps(m, clock, es, |es|);
  }

  /** A task starts as soon as it may: at once when the queue is cold or the floor has passed since the
      last finish, else after a sleep of exactly what remains of it. */
  lemma {:induction false} StartsAsSoonAsItMay(s: State, now: int)
    requires Next(s, Begin(now)).Some?
    ensures var last, task := s.lastFinishedAt, s.waiting[0];
      Next(s, Begin(now)).value.current ==
        if last.None? || now >= last.value + s.minIntervalMs then Running(task, now)
        else Sleeping(task, last.value + s.minIntervalMs)
  {
  }

  /** The wait is the least that is not negative and takes the clock past the floor. */
  lemma {:induction false} WaitExactly(s: State, now: int)
    ensures var w := Wait(s, now);
      && (w == 0 || (s.lastFinishedAt.Some? && now + w == s.lastFinishedAt.value + s.minIntervalMs))
      && w >= 0 && (s.lastFinishedAt.Some? ==> now + w >= s.lastFinishedAt.value + s.minIntervalMs)
  {
  }

  // Draining

  /** What a call of `drain` awaits does not change. */
  lemma {:induction false} DrainStays(s: State, es: seq<Event>, m: nat, n: nat, i: nat)
    requires m <= n <= |es| && Run(s, es, n).Some?
    ensures Run(s, es, m).Some?
    ensures i < |Run(s, es, m).value.drains| ==>
      && i < |Run(s, es, n).value.drains|
      && Run(s, es, n).value.drains[i].awaits == Run(s, es, m).value.drains[i].awaits
  {
    if m < n {
      DrainStays(s, es, m, n - 1, i);
    }
  }

  /** The first `n` tasks enqueued have settled. */
  predicate AllSettled(s: State, n: nat) {
    n <= |s.log| && forall i :: 0 <= i < n ==> s.log[i].task == i
  }

  lemma {:induction false} TailCoversAll(s: State, w: Waiter, n: nat)
    requires InOrder(s) && w.awaits == if n == 0 then None else Some(n - 1)
    ensures Over(s, w) <==> AllSettled(s, n)
  {
    if AllSettled(s, n) && n > 0 {
      assert s.log[n - 1].task == n - 1;
    }
  }

  /** In every run, a `drain` called at step `m` may resolve after `n` steps exactly when every task
      enqueued before the call has settled, though it awaits only the last of them. */
  lemma {:induction false} DrainCoversEverythingEarlier(q: int, clock: int, es: seq<Event>, m: nat, n: nat)
    requires m < n <= |es| && es[m].Drains? && Run(Fresh(q, clock), es, n).Some?
    ensures Run(Fresh(q, clock), es, m).Some?
    ensures var r, s := Run(Fresh(q, clock), es, m).value, Run(Fresh(q, clock), es, n).value;
      |r.drains| < |s.drains| && (Over(s, s.drains[|r.drains|]) <==> AllSettled(s, r.enqueued))
  {
    Runs.Happened(Next, Fresh(q, clock), es, m, n);
    Runs.Happened(Next, Fresh(q, clock), es, m + 1, n);
    var r, s := Run(Fresh(q, clock), es, m).value, Run(Fresh(q, clock), es, n).value;
    DrainStays(Fresh(q, clock), es, m + 1, n, |r.drains|);
    RunKeeps(q, clock, es, n);
    hide Over, AllSettled, InOrder, Spaced, Counted;
    TailCoversAll(s, s.drains[|r.drains|], r.enqueued);
  }

  /** So when it has resolved, they had all settled. */
  lemma {:induction false} DrainedWhenResolved(q: int, clock: int, es: seq<Event>, m: nat, n: nat)
    requires m < n < |es| && es[m].Drains? && Run(Fresh(q, clock), es, n + 1).Some?
    requires Run(Fresh(q, clock), es, m).Some?
    requires es[n].Resolve? && es[n].drain == |Run(Fresh(q, clock), es, m).value.drains|
    ensures var r, s := Run(Fresh(q, clock), es, m).value, Run(Fresh(q, clock), es, n + 1).value;
      AllSettled(s, r.enqueued) && s.drains[|r.drains|].resolved
  {
    Runs.OneStep(Next, Fresh(q, clock), es, n);
    DrainCoversEverythingEarlier(q, clock, es, m, n);
    hide Over;
  }

  /** The queue never gets stuck: while tasks are pending some step can be taken. */
  lemma {:induction false} NeverStuck(s: State)
    requires Inv(s) && s.pending > 0
    ensures exists e :: Next(s, e).Some? && (e.Begin? || e.Wake? || e.Settle?)
  {
    var late := s.clock + if s.current.Sleeping? && s.current.until > s.clock then s.current.until - s.clock else 0;
    match s.current
    case Idle => assert Next(s, Begin(late)).Some?;
    case Sleeping(_, _) => assert Next(s, Wake(late)).Some?;
    case Running(_, _) => assert Next(s, Settle(late)).Some?;
  }

  // Wall-clock seconds

  /** The second a write at `ms` is keyed by. */
  function Second(ms: int): int { ms / 1000 }

  /** `writes[i]` is an instant at which task `i` may have written. */
  ghost predicate WritesOf(log: seq<Span>, writes: seq<int>) {
    |writes| == |log| && forall i :: 0 <= i < |log| ==> log[i].started <= writes[i] <= log[i].finished
  }

  lemma {:induction false} WritesApart(log: seq<Span>, writes: seq<int>, gap: int, i: nat, j: nat)
    requires WritesOf(log, writes) && i < j < |log| && gap >= 0
    requires forall k :: 0 < k < |log| ==> log[k].started >= log[k - 1].finished + gap
    ensures writes[j] >= writes[i] + gap
  {
    if i < j - 1 {
      WritesApart(log, writes, gap, i, j - 1);
    }
    assert log[j].started >= log[j - 1].finished + gap;
  }

  /** With a floor of a second or more no two tasks write in the same wall-clock second. */
  lemma {:induction false} SecondsDistinct(m: int, clock: int, es: seq<Event>, writes: seq<int>)
    requires m >= 1000 && Run(Fresh(m, clock), es, |es|).Some?
    requires WritesOf(Run(Fresh(m, clock), es, |es|).value.log, writes)
    ensures forall i, j :: 0 <= i < j < |writes| ==> Second(writes[i]) < Second(writes[j])
  {
    var s := Run(Fresh(m, clock), es, |es|).value;
    RateFloor(m, clock, es);
    forall i, j | 0 <= i < j < |writes|
      ensures Second(writes[i]) < Second(writes[j])
    {
      WritesApart(s.log, writes, m, i, j);
    }
  }

  /** Two tasks enqueued together, the first taking no time, each writing as it starts. */
  function Collision(m: nat): seq<Event> {
    [Enqueue(0), Enqueue(0), Begin(0), Settle(0), Begin(0)]
    + (if m > 0 then [Wake(m)] else []) + [Settle(m)]
  }

  /** Any shorter floor lets two tasks write in the same second. */
  lemma {:induction false} ShortFloorCollides(m: nat)
    requires m < 1000
    ensures var es := Collision(m);
      && Run(Fresh(m, 0), es, |es|).Some?
      && WritesOf(Run(Fresh(m, 0), es, |es|).value.log, [0, m])
      && Second(0) == Second(m)
  {
    var es, s := Collision(m), Fresh(m, 0);
    assert Run(s, es, 0) == Some(s);
    assert Run(s, es, 1) == Next(Run(s, es, 0).value, es[0]);
    assert Run(s, es, 2) == Next(Run(s, es, 1).value, es[1]);
    assert Run(s, es, 3) == Next(Run(s, es, 2).value, es[2]);
    assert Run(s, es, 4) == Next(Run(s, es, 3).value, es[3]);
    assert Run(s, es, 5) == Next(Run(s, es, 4).value, es[4]);
    assert Run(s, es, 6) == Next(Run(s, es, 5).value, es[5]);
    var t := Run(s, es, 5).value;
    assert t.log == [Span(0, 0, 0)];
    if m > 0 {
      assert Run(s, es, 7) == Next(Run(s, es, 6).value, es[6]);
    }
    assert Run(s, es, |es|).value.log == [Span(0, 0, 0), Span(1, m, m)];
  }

  /** The floor the queue uses unless told otherwise is long enough. */
  lemma {:induction false} DefaultFloorSuffices(clock: int, es: seq<Event>, writes: seq<int>)
    requires Run(Fresh(FloorOf(None), clock), es, |es|).Some?
    requires WritesOf(Run(Fresh(FloorOf(None), clock), es, |es|).value.log, writes)
    ensures FloorOf(None) == 1_100
    ensures forall i, j :: 0 <= i < j < |writes| ==> Second(writes[i]) < Second(writes[j])
  {
    SecondsDistinct(1_100, clock, es, writes);
  }

  // The object

  class PatchQueue {
    const minIntervalMs: int
    var tail: seq<nat>
    var pending: int
    var lastFinishedAt: Option<int>
    var current: Current
    ghost var enqueued: nat
    ghost var clock: int
    ghost var log: seq<Span>
    ghost var notices: seq<int>
    var nextTask: nat
    var drains: seq<Waiter>

    ghost function Abstract(): State
      reads this
    {
      State(minIntervalMs, tail, pending, lastFinishedAt, current, enqueued, clock, log, notices, drains)
    }

    ghost predicate Valid()
      reads this
    {
      Inv(Abstract()) && nextTask == enqueued
    }

    constructor (minIntervalMs: Option<int>, ghost now: int)
      ensures Valid()
      ensures Abstract() == Fresh(FloorOf(minIntervalMs), now)
      ensures minIntervalMs.Some? ==> this.minIntervalMs == minIntervalMs.value
    {
      this.minIntervalMs := FloorOf(minIntervalMs);
      tail, pending, lastFinishedAt, current, nextTask, drains := [], 0, None, Idle, 0, [];
      enqueued, clock, log, notices := 0, now, [], [];
    }

    method SetDepth(next: int)
      modifies this`pending, this`notices
      ensures pending == next && notices == old(notices) + [next]
    {
      pending := next;
      notices := notices + [next];
    }

    method WaitMs(now: int) returns (ms: int)
      ensures ms == Wait(Abstract(), now)
    {
      if lastFinishedAt.None? {
        return 0;
      }
      ms := minIntervalMs - (now - lastFinishedAt.value);
      if ms < 0 {
        ms := 0;
      }
    }

    method Enqueue(now: int)
      requires Valid() && now >= clock
      modifies this
      ensures Valid() && Some(Abstract()) == Next(old(Abstract()), Event.Enqueue(now))
    {
      NextKeeps(Abstract(), Event.Enqueue(now));
      SetDepth(pending + 1);
      tail := tail + [nextTask];
      nextTask := nextTask + 1;
      enqueued, clock := enqueued + 1, now;
    }

    /** The task before has settled: sleep out the floor, or start at once. */
    method Begin(now: int)
      requires Valid() && now >= clock && current.Idle? && tail != []
      modifies this
      ensures Valid() && Some(Abstract()) == Next(old(Abstract()), Event.Begin(now))
    {
      NextKeeps(Abstract(), Event.Begin(now));
      var wait := WaitMs(now);
      var task := tail[0];
      tail := tail[1..];
      if wait > 0 {
        current := Sleeping(task, now + wait);
      } else {
        current := Running(task, now);
      }
      clock := now;
    }

    method Wake(now: int)
      requires Valid() && now >= clock && current.Sleeping? && now >= current.until
      modifies this
      ensures Valid() && Some(Abstract()) == Next(old(Abstract()), Event.Wake(now))
    {
      NextKeeps(Abstract(), Event.Wake(now));
      current := Running(current.task, now);
      clock := now;
    }

    /** The `finally` of a task, whether it resolved or rejected. */
    method Settle(now: int)
      requires Valid() && now >= clock && current.Running?
      modifies this
      ensures Valid() && Some(Abstract()) == Next(old(Abstract()), Event.Settle(now))
    {
      NextKeeps(Abstract(), Event.Settle(now));
      log := log + [Span(current.task, current.started, now)];
      lastFinishedAt := Some(now);
      SetDepth(pending - 1);
      current, clock := Idle, now;
    }

    /** `drain` takes hold of the tail, which is the promise of the task enqueued last. */
    method Drain(now: int)
      requires Valid() && now >= clock
      modifies this
      ensures Valid() && Some(Abstract()) == Next(old(Abstract()), Event.Drains(now))
    {
      NextKeeps(Abstract(), Event.Drains(now));
      drains := drains + [Waiter(if nextTask == 0 then None else Some(nextTask - 1), false)];
      clock := now;
    }

    /** The promise it awaited has settled. */
    method Resolve(drain: nat, now: int)
      requires Valid() && now >= clock && drain < |drains| && !drains[drain].resolved
      requires Over(Abstract(), drains[drain])
      modifies this
      ensures Valid() && Some(Abstract()) == Next(old(Abstract()), Event.Resolve(drain, now))
    {
      NextKeeps(Abstract(), Event.Resolve(drain, now));
      drains := drains[drain := drains[drain].(resolved := true)];
      clock := now;
    }
  }
}
