/** Publishing to the gateway over any run with overlapping requests, failing writes, crashes and
    restarts (gateway/src/admin.ts, gateway/src/store/file.ts).

    A publish awaits the ledger, the owner lookup, the signature check and the write, so publishes
    interleave at those points. `Gateway` is one process and its file; `Next` is one uninterrupted
    stretch of its code, or a crash. */
module Publish {
  import opened Utf
  import opened Store
  import Runs

  const MAX_AUTHORISATION_WINDOW_SECONDS := 3600

  datatype Request = Request(node: Text, nonce: int, validUntil: int, expires: int, body: Text)

  /** The checks made before anything is awaited. */
  predicate Timely(r: Request, now: int) {
    now < r.validUntil && r.validUntil - now <= MAX_AUTHORISATION_WINDOW_SECONDS && now < r.expires
  }

  /** How far a publish has come: waiting for the ledger, holding the nonce it was told, past every
      check, waiting for its flush, answered. */
  datatype Phase = Asking | Seen(last: int) | Cleared(last: int) | Queued | Acknowledged | Refused

  datatype Ack = Ack(node: Text, nonce: int)

  /** `before` are the publishes that had been acknowledged when this one arrived. */
  datatype Client = Client(request: Request, arrived: int, before: set<Ack>, phase: Phase)

  /** `acks` records history: every publish ever acknowledged. */
  datatype Gateway = Gateway(disk: Option<Content>, file: FileState, clients: map<nat, Client>, acks: set<Ack>)

  datatype Event =
    | Arrive(id: nat, request: Request, now: int)
    | Load(readable: bool)
    | ReadLedger(id: nat)
    | Judge(id: nat, authorised: bool)
    | Put(id: nat)
    | BeginFlush
    | Rename
    | FlushFails
    | Acknowledge
    | Crash

  const START := Gateway(None, FRESH, map[], {})

  function DiskContent(s: Gateway): Content {
    if s.disk.Some? then s.disk.value else EMPTY
  }

  predicate In(s: Gateway, id: nat, p: Phase) { id in s.clients && s.clients[id].phase == p }

  function Move(s: Gateway, id: nat, p: Phase): Gateway
    requires id in s.clients
  {
    s.(clients := s.clients[id := s.clients[id].(phase := p)])
  }

  function RecordOf(r: Request): Record { Record(r.node, r.nonce, r.body) }

  /** One stretch of code or one crash; `None` when it cannot happen now. */
  function Next(s: Gateway, e: Event): Option<Gateway> {
    match e
    case Arrive(id, r, now) =>
      if id in s.clients then None
      else Some(s.(clients := s.clients[id := Client(r, now, s.acks, if Timely(r, now) then Asking else Refused)]))
    case Load(readable) =>
      if s.file.loading != Unloaded then None
      else
        var held := if !readable then Unreadable else if s.disk.None? then Missing else Held(s.disk.value);
        Some(s.(file := Loaded(s.file, held)))
    case ReadLedger(id) =>
      if !In(s, id, Asking) || s.file.loading != Ready then None
      else Some(Move(s, id, Seen(Ledger(s.file.memory, s.clients[id].request.node))))
    case Judge(id, authorised) =>
      if id !in s.clients || !s.clients[id].phase.Seen? then None
      else
        var c := s.clients[id];
        if c.request.nonce <= c.phase.last || !authorised then Some(Move(s, id, Refused))
        else Some(Move(s, id, Cleared(c.phase.last)))
    case Put(id) =>
      if id !in s.clients || !s.clients[id].phase.Cleared? || s.file.loading != Ready then None
      else
        Some(Move(s, id, Queued).(file := Stored(s.file, id, RecordOf(s.clients[id].request))))
    case BeginFlush =>
      if s.file.queue == [] || s.file.flight.Some? then None
      else Some(s.(file := Flushing(s.file)))
    case Rename =>
      if s.file.flight.None? then None
      else
        var f := s.file.flight.value;
        Some(s.(disk := Some(f.snapshot), file := s.file.(flight := Some(f.(renamed := true)))))
    case FlushFails =>
      if s.file.flight.None? || s.file.flight.value.ticket !in s.clients then None
      else Some(Move(s, s.file.flight.value.ticket, Refused).(file := s.file.(flight := None)))
    case Acknowledge =>
      if s.file.flight.None? || !s.file.flight.value.renamed || s.file.flight.value.ticket !in s.clients then None
      else
        var id := s.file.flight.value.ticket;
        var r := s.clients[id].request;
        Some(Move(s, id, Acknowledged).(file := s.file.(flight := None), acks := s.acks + {Ack(r.node, r.nonce)}))
    case Crash => Some(s.(file := FRESH, clients := map[]))
  }

  // What every step keeps

  /** Ledgers rise from the file to the snapshot being flushed to memory. */
  ghost predicate Snapshots(s: Gateway) {
    && Below(EMPTY, DiskContent(s))
    && (s.file.loading == Ready ==> Below(DiskContent(s), s.file.memory))
    && (s.file.loading == Unloaded ==> s.file.memory == EMPTY)
    && (s.file.loading != Ready ==> s.file.queue == [] && s.file.flight.None?)
    && (s.file.flight.Some? ==>
          && Below(DiskContent(s), s.file.flight.value.snapshot)
          && Below(s.file.flight.value.snapshot, s.file.memory)
          && (s.file.flight.value.renamed ==> s.disk == Some(s.file.flight.value.snapshot)))
  }

  /** Client `id` waits for its flush, and the ledger of `c` has reached its publish. */
  ghost predicate Reached(s: Gateway, id: nat, c: Content) {
    In(s, id, Queued) && Ledger(c, s.clients[id].request.node) >= s.clients[id].request.nonce
  }

  /** No client waits for two flushes. */
  ghost predicate OneFlushEach(s: Gateway) {
    && (forall i, j :: 0 <= i < j < |s.file.queue| ==> s.file.queue[i] != s.file.queue[j])
    && (s.file.flight.Some? ==> s.file.flight.value.ticket !in s.file.queue)
  }

  /** Publishes waiting for a flush are in memory; the one being flushed is in the snapshot; every
      acknowledged one is in the file. */
  ghost predicate Durable(s: Gateway) {
    && OneFlushEach(s)
    && (forall i :: 0 <= i < |s.file.queue| ==> Reached(s, s.file.queue[i], s.file.memory))
    && (s.file.flight.Some? ==> Reached(s, s.file.flight.value.ticket, s.file.flight.value.snapshot))
    && forall a :: a in s.acks ==> Ledger(DiskContent(s), a.node) >= a.nonce
  }

  /** Nothing acknowledged before `c` arrived can pass as `c`. */
  ghost predicate Guarded(c: Client) {
    match c.phase
    case Asking | Refused => true
    case Seen(last) => forall a :: a in c.before && a.node == c.request.node ==> last >= a.nonce
    case Cleared(_) | Queued | Acknowledged =>
      && Timely(c.request, c.arrived)
      && forall a :: a in c.before && a.node == c.request.node ==> c.request.nonce > a.nonce
  }

  ghost predicate Sound(c: Client, acks: set<Ack>) {
    c.before <= acks && Guarded(c) && (!c.phase.Refused? ==> Timely(c.request, c.arrived))
  }

  ghost predicate Protected(s: Gateway) {
    forall id :: id in s.clients ==> Sound(s.clients[id], s.acks)
  }

  ghost predicate Inv(s: Gateway) { Snapshots(s) && Durable(s) && Protected(s) }

  lemma {:induction false} NextSnapshots(s: Gateway, e: Event)
    requires Inv(s) && Next(s, e).Some?
    ensures Snapshots(Next(s, e).value)
  {
    if e.Put? {
      LedgerAfterWrite(s.file.memory, RecordOf(s.clients[e.id].request));
    }
  }

  lemma {:induction false} PutDurable(s: Gateway, id: nat)
    requires Durable(s) && Next(s, Put(id)).Some?
    ensures Durable(Next(s, Put(id)).value)
  {
    var t, r := Next(s, Put(id)).value, RecordOf(s.clients[id].request);
    LedgerAfterWrite(s.file.memory, r);
    forall i | 0 <= i < |t.file.queue|
      ensures Reached(t, t.file.queue[i], t.file.memory)
    {
      assert i < |s.file.queue| ==> Reached(s, s.file.queue[i], s.file.memory);
    }
    assert forall i :: 0 <= i < |s.file.queue| ==> s.file.queue[i] != id;
  }

  /** Clients that wait for no flush may move freely. */
  lemma {:induction false} MoveDurable(s: Gateway, id: nat, p: Phase)
    requires Durable(s) && id in s.clients && !s.clients[id].phase.Queued?
    ensures Durable(Move(s, id, p))
  {
    var t := Move(s, id, p);
    forall i | 0 <= i < |t.file.queue|
      ensures Reached(t, t.file.queue[i], t.file.memory)
    {
      assert Reached(s, s.file.queue[i], s.file.memory);
    }
  }

  lemma {:induction false} BeginDurable(s: Gateway)
    requires Durable(s) && Next(s, BeginFlush).Some?
    ensures Durable(Next(s, BeginFlush).value)
  {
    var t := Next(s, BeginFlush).value;
    assert Reached(s, s.file.queue[0], s.file.memory);
    forall i | 0 <= i < |t.file.queue|
      ensures Reached(t, t.file.queue[i], t.file.memory)
    {
      assert t.file.queue[i] == s.file.queue[i + 1];
      assert Reached(s, s.file.queue[i + 1], s.file.memory);
    }
  }

  lemma {:induction false} RenameDurable(s: Gateway)
    requires Snapshots(s) && Durable(s) && Next(s, Rename).Some?
    ensures Durable(Next(s, Rename).value)
  {
    var t := Next(s, Rename).value;
    forall i | 0 <= i < |t.file.queue|
      ensures Reached(t, t.file.queue[i], t.file.memory)
    {
      assert Reached(s, s.file.queue[i], s.file.memory);
    }
    forall a | a in s.acks
      ensures Ledger(DiskContent(t), a.node) >= a.nonce
    {
      assert Ledger(DiskContent(s), a.node) >= a.nonce;
    }
  }

  /** The flush of `id` settles: it leaves the chain. */
  lemma {:induction false} SettleDurable(s: Gateway, id: nat, p: Phase)
    requires Durable(s) && s.file.flight.Some? && s.file.flight.value.ticket == id && id in s.clients
    ensures Durable(Move(s, id, p).(file := s.file.(flight := None)))
  {
    var t := Move(s, id, p).(file := s.file.(flight := None));
    forall i | 0 <= i < |t.file.queue|
      ensures Reached(t, t.file.queue[i], t.file.memory)
    {
      assert Reached(s, s.file.queue[i], s.file.memory) && s.file.queue[i] != id;
    }
  }

  lemma {:induction false} NextDurable(s: Gateway, e: Event)
    requires Inv(s) && Next(s, e).Some?
    ensures Durable(Next(s, e).value)
  {
    match e
    case Put(id) => PutDurable(s, id);
    case ReadLedger(id) => MoveDurable(s, id, Seen(Ledger(s.file.memory, s.clients[id].request.node)));
    case Judge(id, _) =>
      MoveDurable(s, id, Refused);
      MoveDurable(s, id, Cleared(s.clients[id].phase.last));
    case BeginFlush => BeginDurable(s);
    case Rename => RenameDurable(s);
    case FlushFails => SettleDurable(s, s.file.flight.value.ticket, Refused);
    case Acknowledge => SettleDurable(s, s.file.flight.value.ticket, Acknowledged);
    case _ => hide Guarded, Timely, Write;
  }

  lemma {:induction false} MoveProtected(s: Gateway, id: nat, p: Phase)
    requires Protected(s) && id in s.clients && Sound(s.clients[id].(phase := p), s.acks)
    ensures Protected(Move(s, id, p))
  {
  }

  lemma {:induction false} ReadSound(s: Gateway, id: nat)
    requires Inv(s) && In(s, id, Asking) && s.file.loading == Ready
    ensures var c := s.clients[id]; Sound(c.(phase := Seen(Ledger(s.file.memory, c.request.node))), s.acks)
  {
    var c := s.clients[id];
    assert Sound(c, s.acks);
    forall a | a in c.before && a.node == c.request.node
      ensures Ledger(s.file.memory, a.node) >= a.nonce
    {
      assert Ledger(DiskContent(s), a.node) >= a.nonce;
    }
  }

  lemma {:induction false} JudgeSound(c: Client, acks: set<Ack>)
    requires Sound(c, acks) && c.phase.Seen? && c.request.nonce > c.phase.last
    ensures Sound(c.(phase := Cleared(c.phase.last)), acks)
  {
  }

  lemma {:induction false} AcknowledgeProtected(s: Gateway)
    requires Protected(s) && Durable(s) && Next(s, Acknowledge).Some?
    ensures Protected(Next(s, Acknowledge).value)
  {
    var id := s.file.flight.value.ticket;
    assert Sound(s.clients[id], s.acks);
    MoveProtected(s, id, Acknowledged);
  }

  lemma {:induction false} NextProtected(s: Gateway, e: Event)
    requires Inv(s) && Next(s, e).Some?
    ensures Protected(Next(s, e).value)
  {
    match e
    case ReadLedger(id) =>
      ReadSound(s, id);
      MoveProtected(s, id, Seen(Ledger(s.file.memory, s.clients[id].request.node)));
    case Judge(id, authorised) =>
      var c := s.clients[id];
      assert Sound(c, s.acks);
      if c.request.nonce > c.phase.last && authorised {
        JudgeSound(c, s.acks);
        MoveProtected(s, id, Cleared(c.phase.last));
      } else {
        MoveProtected(s, id, Refused);
      }
    case Put(id) =>
      assert Sound(s.clients[id], s.acks);
      MoveProtected(s, id, Queued);
    case FlushFails =>
      var id := s.file.flight.value.ticket;
      assert Sound(s.clients[id], s.acks);
      MoveProtected(s, id, Refused);
    case Acknowledge => AcknowledgeProtected(s);
    case _ =>
  }

  lemma {:induction false} NextKeeps(s: Gateway, e: Event)
    requires Inv(s) && Next(s, e).Some?
    ensures Inv(Next(s, e).value)
  {
    NextSnapshots(s, e);
    NextDurable(s, e);
    NextProtected(s, e);
  }

  /** The gateway after the first `n` events of a run. */
  function After(es: seq<Event>, n: nat): Option<Gateway>
    requires n <= |es|
  {
    Runs.After(Next, START, es, n)
  }

  lemma {:induction false} RunKeeps(es: seq<Event>, n: nat)
    requires n <= |es| && After(es, n).Some?
    ensures Inv(After(es, n).value)
  {
    if n > 0 {
      RunKeeps(es, n - 1);
      hide Inv, Next;
      NextKeeps(After(es, n - 1).value, es[n - 1]);
    }
  }

  ghost predicate Happens(es: seq<Event>, n: nat) { n <= |es| && After(es, n).Some? }

  // What is on disk

  /** Some process had exactly `c` in memory at or before moment `n`. */
  ghost predicate WasInMemory(es: seq<Event>, n: nat, c: Content)
    requires n <= |es|
  {
    exists m :: 0 <= m <= n && Happens(es, m) && After(es, m).value.file.memory == c
  }

  lemma {:induction false} SnapshotsWereInMemory(es: seq<Event>, n: nat)
    requires Happens(es, n)
    ensures var s := After(es, n).value;
      && (s.disk.Some? ==> WasInMemory(es, n, s.disk.value))
      && (s.file.flight.Some? ==> WasInMemory(es, n, s.file.flight.value.snapshot))
  {
    if n > 0 {
      SnapshotsWereInMemory(es, n - 1);
      var s, t := After(es, n - 1).value, After(es, n).value;
      Carried(es, n, s, t, es[n - 1]);
      forall c | WasInMemory(es, n - 1, c)
        ensures WasInMemory(es, n, c)
      {
        var m :| 0 <= m <= n - 1 && Happens(es, m) && After(es, m).value.file.memory == c;
        assert Happens(es, m);
      }
      assert Happens(es, n - 1);
      assert WasInMemory(es, n, s.file.memory);
    }
  }

  /** A step writes to disk only what was being flushed, and flushes only what is in memory. */
  lemma {:induction false} Carried(es: seq<Event>, n: nat, s: Gateway, t: Gateway, e: Event)
    requires Next(s, e) == Some(t)
    ensures t.disk == s.disk || (s.file.flight.Some? && t.disk == Some(s.file.flight.value.snapshot))
    ensures t.file.flight.Some? ==>
              t.file.flight.value.snapshot == s.file.memory
              || (s.file.flight.Some? && t.file.flight.value.snapshot == s.file.flight.value.snapshot)
  {
  }

  /** At every moment of every run the file is missing or a complete copy of what some process had
      in memory at one earlier instant. */
  lemma {:induction false} FileIsAPastSnapshot(es: seq<Event>, n: nat)
    requires Happens(es, n)
    ensures After(es, n).value.disk.None? || WasInMemory(es, n, After(es, n).value.disk.value)
  {
    SnapshotsWereInMemory(es, n);
  }

  // Ledgers only grow

  lemma {:induction false} StepGrows(s: Gateway, e: Event)
    requires Inv(s) && Next(s, e).Some?
    ensures var t := Next(s, e).value;
      && Below(DiskContent(s), DiskContent(t))
      && (!e.Crash? ==> Below(s.file.memory, t.file.memory))
      && s.acks <= t.acks
  {
    if e.Put? {
      LedgerAfterWrite(s.file.memory, RecordOf(s.clients[e.id].request));
    } else if e.Rename? {
      assert Below(DiskContent(s), s.file.flight.value.snapshot);
    }
  }

  lemma {:induction false} FileGrows(es: seq<Event>, m: nat, n: nat)
    requires m <= n && Happens(es, m) && Happens(es, n)
    ensures Below(DiskContent(After(es, m).value), DiskContent(After(es, n).value))
    ensures After(es, m).value.acks <= After(es, n).value.acks
    ensures (forall i :: m <= i < n ==> !es[i].Crash?) ==>
      Below(After(es, m).value.file.memory, After(es, n).value.file.memory)
  {
    if m < n {
      Runs.Happened(Next, START, es, n - 1, n);
      FileGrows(es, m, n - 1);
      RunKeeps(es, n - 1);
      StepGrows(After(es, n - 1).value, es[n - 1]);
      hide Inv, Next, Ledger;
    }
  }

  /** Once a publish has been acknowledged, the ledger on disk is at least its nonce for good,
      whatever fails, crashes or restarts. */
  lemma {:induction false} AcknowledgedStaysOnDisk(es: seq<Event>, m: nat, n: nat, a: Ack)
    requires m <= n && Happens(es, m) && Happens(es, n) && a in After(es, m).value.acks
    ensures Ledger(DiskContent(After(es, n).value), a.node) >= a.nonce
  {
    FileGrows(es, m, n);
    RunKeeps(es, n);
  }

  // No publish is accepted twice

  lemma {:induction false} StepArrivals(s: Gateway, e: Event, id: nat)
    requires Next(s, e).Some? && id in Next(s, e).value.clients
    ensures var t := Next(s, e).value;
      t.clients[id].before == s.acks || (id in s.clients && t.clients[id].before == s.clients[id].before)
  {
  }

  /** A client that was not there at moment `m` knows every publish acknowledged by then. */
  lemma {:induction false} LaterArrivalsKnow(es: seq<Event>, m: nat, n: nat, id: nat)
    requires m <= n && Happens(es, m) && Happens(es, n)
    requires id in After(es, n).value.clients && id !in After(es, m).value.clients
    ensures After(es, m).value.acks <= After(es, n).value.clients[id].before
  {
    if m < n {
      Runs.Happened(Next, START, es, n - 1, n);
      var s := After(es, n - 1).value;
      StepArrivals(s, es[n - 1], id);
      if After(es, n).value.clients[id].before == s.acks {
        FileGrows(es, m, n - 1);
      } else {
        LaterArrivalsKnow(es, m, n - 1, id);
      }
    }
  }

  /** A publish that arrives after one for the same node with the same or a higher nonce was
      acknowledged never gets past the nonce check, in any run with any number of crashes. */
  lemma {:induction false} NeverAcceptedAgain(es: seq<Event>, m: nat, n: nat, a: Ack, id: nat)
    requires m <= n && Happens(es, m) && Happens(es, n) && a in After(es, m).value.acks
    requires id in After(es, n).value.clients && id !in After(es, m).value.clients
    requires After(es, n).value.clients[id].request.node == a.node
    requires After(es, n).value.clients[id].request.nonce <= a.nonce
    ensures var p := After(es, n).value.clients[id].phase; p.Asking? || p.Seen? || p.Refused?
  {
    LaterArrivalsKnow(es, m, n, id);
    RunKeeps(es, n);
    assert Sound(After(es, n).value.clients[id], After(es, n).value.acks);
  }

  // Nothing is stored that its owner did not authorise

  /** Event `m` judged the publish `r` of client `id` authorised: its nonce is above the ledger it was
      told, and it arrived within its authorisation and before its envelope expired. */
  ghost predicate Authorised(es: seq<Event>, m: nat, id: nat, r: Request) {
    && m < |es| && es[m] == Judge(id, true) && Happens(es, m) && id in After(es, m).value.clients
    && var c := After(es, m).value.clients[id];
      && c.request == r && c.phase.Seen? && r.nonce > c.phase.last
      && c.arrived < r.validUntil <= c.arrived + 3600 && c.arrived < r.expires
  }

  ghost predicate WasAuthorised(es: seq<Event>, n: nat, id: nat, r: Request) {
    exists m :: 0 <= m < n && Authorised(es, m, id, r)
  }

  /** Some client's publish `r`. */
  ghost predicate SomeAuthorised(es: seq<Event>, n: nat, r: Request) {
    exists id :: WasAuthorised(es, n, id, r)
  }

  predicate Accepted(c: Client) { c.phase.Cleared? || c.phase.Queued? || c.phase.Acknowledged? }

  lemma {:induction false} StillAuthorised(es: seq<Event>, m: nat, n: nat, id: nat, r: Request)
    requires m <= n && WasAuthorised(es, m, id, r)
    ensures WasAuthorised(es, n, id, r) && SomeAuthorised(es, n, r)
  {
    hide Authorised;
    var k :| 0 <= k < m && Authorised(es, k, id, r);
    assert WasAuthorised(es, n, id, r);
  }

  lemma {:induction false} StepAccepted(s: Gateway, e: Event, id: nat)
    requires Durable(s) && Next(s, e).Some? && id in Next(s, e).value.clients
    requires Accepted(Next(s, e).value.clients[id])
    ensures id in s.clients && s.clients[id].request == Next(s, e).value.clients[id].request
    ensures
      || Accepted(s.clients[id])
      || (e == Judge(id, true) && s.clients[id].phase.Seen? && s.clients[id].request.nonce > s.clients[id].phase.last)
  {
  }

  /** In every run, a publish past its checks was judged authorised since it arrived. */
  lemma {:induction false} AcceptedWasAuthorised(es: seq<Event>, n: nat, id: nat)
    requires Happens(es, n) && id in After(es, n).value.clients && Accepted(After(es, n).value.clients[id])
    ensures WasAuthorised(es, n, id, After(es, n).value.clients[id].request)
  {
    Runs.Happened(Next, START, es, n - 1, n);
    RunKeeps(es, n - 1);
    var s := After(es, n - 1).value;
    StepAccepted(s, es[n - 1], id);
    hide Next, Snapshots, Durable, Reached, Guarded, WasAuthorised;
    if Accepted(s.clients[id]) {
      AcceptedWasAuthorised(es, n - 1, id);
      StillAuthorised(es, n - 1, n, id, s.clients[id].request);
    } else {
      assert Sound(s.clients[id], s.acks);
      JustAuthorised(es, n - 1, id);
    }
  }

  lemma {:induction false} FlightAccepted(s: Gateway)
    requires Durable(s)
    ensures s.file.flight.Some? ==>
      s.file.flight.value.ticket in s.clients && Accepted(s.clients[s.file.flight.value.ticket])
  {
  }

  lemma {:induction false} JustAuthorised(es: seq<Event>, m: nat, id: nat)
    requires m < |es| && es[m] == Judge(id, true) && Happens(es, m) && id in After(es, m).value.clients
    requires var c := After(es, m).value.clients[id];
      c.phase.Seen? && c.request.nonce > c.phase.last && Timely(c.request, c.arrived)
    ensures WasAuthorised(es, m + 1, id, After(es, m).value.clients[id].request)
  {
    assert Authorised(es, m, id, After(es, m).value.clients[id].request);
  }

  /** A publish judged unauthorised is refused, and stays so while its process lives. */
  lemma {:induction false} UnauthorisedIsRefused(es: seq<Event>, m: nat, n: nat, id: nat)
    requires m < n && Happens(es, n) && es[m] == Judge(id, false)
    requires forall k :: m < k < n ==> !es[k].Crash?
    ensures id in After(es, n).value.clients && After(es, n).value.clients[id].phase == Refused
  {
    Runs.Happened(Next, START, es, n - 1, n);
    var s := After(es, n - 1).value;
    if m < n - 1 {
      UnauthorisedIsRefused(es, m, n - 1, id);
      RunKeeps(es, n - 1);
      FlightAccepted(s);
      hide Inv;
    }
  }

  /** In every run, whatever was ever acknowledged had been judged authorised. */
  lemma {:induction false} AcknowledgedWasAuthorised(es: seq<Event>, n: nat, a: Ack)
    requires Happens(es, n) && a in After(es, n).value.acks
    ensures exists r: Request :: r.node == a.node && r.nonce == a.nonce && SomeAuthorised(es, n, r)
  {
    hide SomeAuthorised, WasAuthorised;
    Runs.Happened(Next, START, es, n - 1, n);
    var s := After(es, n - 1).value;
    RunKeeps(es, n - 1);
    FlightAccepted(s);
    hide Inv;
    if a in s.acks {
      AcknowledgedWasAuthorised(es, n - 1, a);
      var r: Request :| r.node == a.node && r.nonce == a.nonce && SomeAuthorised(es, n - 1, r);
      SomeStillAuthorised(es, n - 1, n, r);
    } else {
      var id := s.file.flight.value.ticket;
      AcceptedWasAuthorised(es, n - 1, id);
      StillAuthorised(es, n - 1, n, id, s.clients[id].request);
    }
  }

  lemma {:induction false} SomeStillAuthorised(es: seq<Event>, m: nat, n: nat, r: Request)
    requires m <= n && SomeAuthorised(es, m, r)
    ensures SomeAuthorised(es, n, r)
  {
    hide WasAuthorised;
    var id :| WasAuthorised(es, m, id, r);
    StillAuthorised(es, m, n, id, r);
  }

  /** Every record was published by an authorised request. */
  ghost predicate RecordsAuthorised(es: seq<Event>, n: nat, c: Content) {
    forall k :: k in c.records ==> exists r :: RecordOf(r) == c.records[k] && SomeAuthorised(es, n, r)
  }

  lemma {:induction false} RecordsStillAuthorised(es: seq<Event>, m: nat, n: nat, c: Content)
    requires m <= n && RecordsAuthorised(es, m, c)
    ensures RecordsAuthorised(es, n, c)
  {
    hide SomeAuthorised;
    forall k | k in c.records
      ensures exists r :: RecordOf(r) == c.records[k] && SomeAuthorised(es, n, r)
    {
      var r :| RecordOf(r) == c.records[k] && SomeAuthorised(es, m, r);
      SomeStillAuthorised(es, m, n, r);
    }
  }

  lemma {:induction false} WriteAuthorised(es: seq<Event>, n: nat, c: Content, r: Request)
    requires RecordsAuthorised(es, n, c) && SomeAuthorised(es, n, r)
    ensures RecordsAuthorised(es, n, Write(c, RecordOf(r)))
  {
    hide SomeAuthorised;
  }

  /** What a step leaves in memory: the same, nothing, the file, or one more accepted publish. */
  lemma {:induction false} StepMemory(s: Gateway, e: Event)
    requires Next(s, e).Some?
    ensures var t := Next(s, e).value;
      || t.file.memory == s.file.memory || t.file.memory == EMPTY
      || (s.disk.Some? && t.file.memory == s.disk.value)
      || (&& e.Put? && e.id in s.clients && Accepted(s.clients[e.id])
          && t.file.memory == Write(s.file.memory, RecordOf(s.clients[e.id].request)))
  {
    hide Write;
  }

  /** In every run, every record in memory was published by a request judged authorised. */
  lemma {:induction false} MemoryAuthorised(es: seq<Event>, n: nat)
    requires Happens(es, n)
    ensures RecordsAuthorised(es, n, After(es, n).value.file.memory)
    decreases n, 0
  {
    if n > 0 {
      Runs.Happened(Next, START, es, n - 1, n);
      var s := After(es, n - 1).value;
      StepMemory(s, es[n - 1]);
      MemoryAuthorised(es, n - 1);
      DiskAuthorised(es, n - 1);
      NoRecords(es, n);
      hide Next, RecordsAuthorised, SomeAuthorised, WasAuthorised, Write;
      RecordsStillAuthorised(es, n - 1, n, s.file.memory);
      if s.disk.Some? {
        RecordsStillAuthorised(es, n - 1, n, s.disk.value);
      }
      if es[n - 1].Put? && es[n - 1].id in s.clients && Accepted(s.clients[es[n - 1].id]) {
        var id := es[n - 1].id;
        AcceptedWasAuthorised(es, n - 1, id);
        StillAuthorised(es, n - 1, n, id, s.clients[id].request);
        WriteAuthorised(es, n, s.file.memory, s.clients[id].request);
      }
    }
  }

  lemma {:induction false} NoRecords(es: seq<Event>, n: nat)
    ensures RecordsAuthorised(es, n, EMPTY)
  {
  }

  /** And so was every record in the file. */
  lemma {:induction false} DiskAuthorised(es: seq<Event>, n: nat)
    requires Happens(es, n)
    ensures After(es, n).value.disk.Some? ==> RecordsAuthorised(es, n, After(es, n).value.disk.value)
    decreases n, 1
  {
    hide RecordsAuthorised;
    FileIsAPastSnapshot(es, n);
    if After(es, n).value.disk.Some? {
      var m :| 0 <= m <= n && Happens(es, m) && After(es, m).value.file.memory == After(es, n).value.disk.value;
      MemoryAuthorised(es, m);
      RecordsStillAuthorised(es, m, n, After(es, n).value.disk.value);
    }
  }

  // Records and ledger

  predicate Deciding(c: Client) { c.phase.Seen? || c.phase.Cleared? }

  /** No two publishes for one node are between their ledger read and their write. */
  ghost predicate Exclusive(s: Gateway) {
    forall i, j :: i in s.clients && j in s.clients && i != j && Deciding(s.clients[i]) && Deciding(s.clients[j]) ==>
      s.clients[i].request.node != s.clients[j].request.node
  }

  /** What client `c` was told is still so. */
  ghost predicate Current(c: Client, memory: Content) {
    && (c.phase.Seen? ==> c.phase.last == Ledger(memory, c.request.node))
    && (c.phase.Cleared? ==> c.phase.last == Ledger(memory, c.request.node) && c.request.nonce > c.phase.last)
  }

  ghost predicate Consistent(s: Gateway) {
    && Agrees(s.file.memory) && Agrees(DiskContent(s))
    && (s.file.flight.Some? ==> Agrees(s.file.flight.value.snapshot))
    && forall id :: id in s.clients ==> Current(s.clients[id], s.file.memory)
  }

  lemma {:induction false} PutConsistent(s: Gateway, id: nat)
    requires Exclusive(s) && Consistent(s) && Next(s, Put(id)).Some?
    ensures Consistent(Next(s, Put(id)).value)
  {
    var r, t := RecordOf(s.clients[id].request), Next(s, Put(id)).value;
    assert Current(s.clients[id], s.file.memory);
    WriteAgreesExactly(s.file.memory, r);
    LedgerAfterWrite(s.file.memory, r);
    forall j | j in t.clients
      ensures Current(t.clients[j], t.file.memory)
    {
      assert j in s.clients && Current(s.clients[j], s.file.memory);
    }
  }

  lemma {:induction false} StepConsistent(s: Gateway, e: Event)
    requires Inv(s) && Exclusive(s) && Consistent(s) && Next(s, e).Some?
    requires forall id :: id in s.clients && Deciding(s.clients[id]) ==> s.file.loading == Ready
    ensures Consistent(Next(s, e).value)
    ensures forall id :: id in Next(s, e).value.clients && Deciding(Next(s, e).value.clients[id]) ==>
              Next(s, e).value.file.loading == Ready
  {
    if e.Put? {
      PutConsistent(s, e.id);
    } else {
      hide Write, Below, Reached, Agrees, Sound;
    }
  }

  /** While publishes for one node do not overlap, every stored record, in memory and on disk,
      carries the ledger nonce of its node. */
  lemma {:induction false} NonOverlappingAgrees(es: seq<Event>, n: nat)
    requires Happens(es, n) && forall m :: 0 <= m <= n && Happens(es, m) ==> Exclusive(After(es, m).value)
    ensures Consistent(After(es, n).value)
    ensures forall id :: id in After(es, n).value.clients && Deciding(After(es, n).value.clients[id]) ==>
              After(es, n).value.file.loading == Ready
  {
    if n > 0 {
      Runs.Happened(Next, START, es, n - 1, n);
      NonOverlappingAgrees(es, n - 1);
      RunKeeps(es, n - 1);
      hide Inv, Exclusive, Consistent, Next, Deciding;
      StepConsistent(After(es, n - 1).value, es[n - 1]);
    }
  }

  /** Putting `id` now would set the stored record back behind the ledger. */
  ghost predicate Behind(s: Gateway, id: nat) {
    id in s.clients && s.clients[id].request.nonce < Ledger(s.file.memory, s.clients[id].request.node)
  }

  lemma {:induction false} StepAgrees(s: Gateway, e: Event)
    requires Inv(s) && Next(s, e).Some? && Agrees(s.file.memory)
    requires e.Load? ==> Agrees(DiskContent(s))
    ensures Agrees(Next(s, e).value.file.memory) <==> !(e.Put? && Behind(s, e.id))
  {
    if e.Put? {
      WriteAgreesExactly(s.file.memory, RecordOf(s.clients[e.id].request));
    }
    hide Agrees;
    assert Agrees(EMPTY) by {
      NothingAgrees();
    }
  }

  lemma {:induction false} NothingAgrees()
    ensures Agrees(EMPTY)
  {
  }

  lemma {:induction false} AgreesUpTo(es: seq<Event>, n: nat)
    requires Happens(es, n)
    requires forall m :: 0 <= m < n && Happens(es, m) && es[m].Put? ==> !Behind(After(es, m).value, es[m].id)
    ensures Agrees(After(es, n).value.file.memory)
  {
    hide Behind, Agrees, Inv, Next;
    NothingAgrees();
    if n > 0 {
      Runs.Happened(Next, START, es, n - 1, n);
      var s := After(es, n - 1).value;
      AgreesUpTo(es, n - 1);
      RunKeeps(es, n - 1);
      FileIsAPastSnapshot(es, n - 1);
      if s.disk.Some? {
        var m :| 0 <= m <= n - 1 && Happens(es, m) && After(es, m).value.file.memory == s.disk.value;
        AgreesUpTo(es, m);
      }
      StepAgrees(s, es[n - 1]);
    }
  }

  /** In every run, every record in memory carries the ledger nonce of its node at every moment exactly
      when no publish is put whose nonce the ledger has passed since it was checked. */
  lemma {:induction false} RecordsAgreeExactly(es: seq<Event>, n: nat)
    requires Happens(es, n)
    ensures (forall m :: 0 <= m <= n && Happens(es, m) ==> Agrees(After(es, m).value.file.memory)) <==>
            forall m :: 0 <= m < n && Happens(es, m) && es[m].Put? ==> !Behind(After(es, m).value, es[m].id)
  {
    hide Behind, Agrees, Inv, Next;
    if forall m :: 0 <= m <= n && Happens(es, m) ==> Agrees(After(es, m).value.file.memory) {
      forall m | 0 <= m < n && Happens(es, m) && es[m].Put?
        ensures !Behind(After(es, m).value, es[m].id)
      {
        Runs.Happened(Next, START, es, m + 1, n);
        RunKeeps(es, m);
        assert Agrees(After(es, m).value.file.memory) && Happens(es, m + 1);
        StepAgrees(After(es, m).value, es[m]);
      }
    }
    if forall m :: 0 <= m < n && Happens(es, m) && es[m].Put? ==> !Behind(After(es, m).value, es[m].id) {
      forall m | 0 <= m <= n && Happens(es, m)
        ensures Agrees(After(es, m).value.file.memory)
      {
        AgreesUpTo(es, m);
      }
    }
  }

  // Overlapping publishes

  /** A publish that passed its checks, and the flush that follows its put, one after the other. */
  lemma {:induction false} PutAndFlush(es: seq<Event>, s: Gateway, id: nat) returns (fs: seq<Event>, t: Gateway)
    requires After(es, |es|) == Some(s) && id in s.clients && s.clients[id].phase.Cleared?
    requires s.file.loading == Ready && s.file.queue == [] && s.file.flight.None?
    ensures After(fs, |fs|) == Some(t)
    ensures t.file == s.file.(memory := Write(s.file.memory, RecordOf(s.clients[id].request)))
    ensures t.disk == Some(t.file.memory)
    ensures t.clients == s.clients[id := s.clients[id].(phase := Acknowledged)]
    ensures t.acks == s.acks + {Ack(s.clients[id].request.node, s.clients[id].request.nonce)}
  {
    var s1, s2, s3;
    s1, s2, s3, t := FlushSteps(s, id);
    hide Next;
    fs := Runs.Extend(Next, START, es, s, Put(id), s1);
    fs := Runs.Extend(Next, START, fs, s1, BeginFlush, s2);
    fs := Runs.Extend(Next, START, fs, s2, Rename, s3);
    fs := Runs.Extend(Next, START, fs, s3, Acknowledge, t);
  }

  lemma {:induction false} FlushSteps(s: Gateway, id: nat) returns (s1: Gateway, s2: Gateway, s3: Gateway, t: Gateway)
    requires id in s.clients && s.clients[id].phase.Cleared?
    requires s.file.loading == Ready && s.file.queue == [] && s.file.flight.None?
    ensures Next(s, Put(id)) == Some(s1) && Next(s1, BeginFlush) == Some(s2)
    ensures Next(s2, Rename) == Some(s3) && Next(s3, Acknowledge) == Some(t)
    ensures t.file == s.file.(memory := Write(s.file.memory, RecordOf(s.clients[id].request)))
    ensures t.disk == Some(t.file.memory)
    ensures t.clients == s.clients[id := s.clients[id].(phase := Acknowledged)]
    ensures t.acks == s.acks + {Ack(s.clients[id].request.node, s.clients[id].request.nonce)}
  {
    hide Write;
    s1 := Next(s, Put(id)).value;
    s2 := Next(s1, BeginFlush).value;
    s3 := Next(s2, Rename).value;
    t := Next(s3, Acknowledge).value;
    assert t.file.queue == [];
  }

  /** Client `id` arrives, reads the ledger and passes its checks. */
  lemma {:induction false} Clear(es: seq<Event>, s: Gateway, id: nat, r: Request) returns (fs: seq<Event>, t: Gateway)
    requires After(es, |es|) == Some(s) && id !in s.clients && Timely(r, 0)
    requires s.file.loading == Ready && r.nonce > Ledger(s.file.memory, r.node)
    ensures After(fs, |fs|) == Some(t)
    ensures t == s.(clients := s.clients[id := Client(r, 0, s.acks, Cleared(Ledger(s.file.memory, r.node)))])
  {
    var s1 := Next(s, Arrive(id, r, 0)).value;
    fs := Runs.Extend(Next, START, es, s, Arrive(id, r, 0), s1);
    var s2 := Next(s1, ReadLedger(id)).value;
    fs := Runs.Extend(Next, START, fs, s1, ReadLedger(id), s2);
    t := Next(s2, Judge(id, true)).value;
    fs := Runs.Extend(Next, START, fs, s2, Judge(id, true), t);
  }

  /** Two publishes for one node, nonces 5 and 6, both checked before either is written, the later
      one written first: both are acknowledged, and the older record replaces the newer one in memory
      and on disk while the ledger keeps 6. */
  lemma {:induction false} OverlapRollsBack(node: Text, older: Text, newer: Text) returns (es: seq<Event>)
    ensures Happens(es, |es|)
    ensures var s := After(es, |es|).value;
      && {Ack(node, 5), Ack(node, 6)} <= s.acks
      && s.disk == Some(s.file.memory)
      && node in s.file.memory.records && s.file.memory.records[node] == Record(node, 5, older)
      && Ledger(s.file.memory, node) == 6
  {
    var s0 := Next(START, Load(true)).value;
    es := Runs.Extend(Next, START, [], START, Load(true), s0);
    var s1, s2, s3, s4;
    es, s1 := Clear(es, s0, 0, Request(node, 5, 1, 1, older));
    es, s2 := Clear(es, s1, 1, Request(node, 6, 1, 1, newer));
    es, s3 := PutAndFlush(es, s2, 1);
    es, s4 := PutAndFlush(es, s3, 0);
  }

  // The process

  /** What a publish under way holds across its awaits. */
  datatype Call = Call(request: Request, phase: Phase)

  /** A gateway process with its file store and the publishes under way; the file, and what a publish
      found acknowledged when it arrived, are ghost. Each method is the code between two awaits, or
      what happens to the process. */
  class GatewayProcess {
    var store: FileEnvelopeStore
    var calls: map<nat, Call>
    ghost var clients: map<nat, Client>
    ghost var disk: Option<Content>
    ghost var acks: set<Ack>

    ghost function Abstract(): Gateway
      reads this, store
    {
      Gateway(disk, store.Abstract(), clients, acks)
    }

    ghost predicate Valid()
      reads this, store
    {
      && Inv(Abstract()) && calls.Keys == clients.Keys
      && forall id :: id in calls ==> calls[id] == Call(clients[id].request, clients[id].phase)
    }

    /** A publish goes on to another phase. */
    method Move(id: nat, phase: Phase)
      requires id in calls && id in clients
      modifies this`calls, this`clients
      ensures calls == old(calls)[id := old(calls[id]).(phase := phase)]
      ensures clients == old(clients)[id := old(clients[id]).(phase := phase)]
    {
      calls := calls[id := calls[id].(phase := phase)];
      clients := clients[id := clients[id].(phase := phase)];
    }

    constructor ()
      ensures Valid() && fresh(store) && Abstract() == START
    {
      store := new FileEnvelopeStore();
      calls, clients, disk, acks := map[], map[], None, {};
    }

    /** A publish arrives: the checks that await nothing. */
    method Arrive(id: nat, request: Request, now: int)
      requires Valid() && id !in calls
      modifies this
      ensures Valid() && store == old(store)
      ensures Some(Abstract()) == Next(old(Abstract()), Event.Arrive(id, request, now))
    {
      NextKeeps(Abstract(), Event.Arrive(id, request, now));
      var phase := Asking;
      if request.validUntil <= now || request.validUntil - now > MAX_AUTHORISATION_WINDOW_SECONDS
        || request.expires <= now {
        phase := Refused;
      }
      calls := calls[id := Call(request, phase)];
      clients := clients[id := Client(request, now, acks, phase)];
    }

    method Load(readable: bool, reading: Reading)
      requires Valid() && store.loading == Unloaded
      requires reading == if !readable then Unreadable else if disk.None? then Missing else Held(disk.value)
      modifies store
      ensures Valid() && Some(Abstract()) == Next(old(Abstract()), Event.Load(readable))
    {
      NextKeeps(Abstract(), Event.Load(readable));
      store.Load(reading);
    }

    method ReadLedger(id: nat)
      requires Valid() && In(Abstract(), id, Asking) && store.loading == Ready
      modifies this
      ensures Valid() && store == old(store) && Some(Abstract()) == Next(old(Abstract()), Event.ReadLedger(id))
    {
      NextKeeps(Abstract(), Event.ReadLedger(id));
      var last := store.LastNonce(calls[id].request.node);
      Move(id, Seen(last));
    }

    /** The nonce, and what the owner lookup and the signature check came to. */
    method Judge(id: nat, authorised: bool)
      requires Valid() && id in calls && calls[id].phase.Seen?
      modifies this
      ensures Valid() && store == old(store) && Some(Abstract()) == Next(old(Abstract()), Event.Judge(id, authorised))
    {
      NextKeeps(Abstract(), Event.Judge(id, authorised));
      var c := calls[id];
      if c.request.nonce <= c.phase.last || !authorised {
        Move(id, Refused);
      } else {
        Move(id, Cleared(c.phase.last));
      }
    }

    method Put(id: nat)
      requires Valid() && id in calls && calls[id].phase.Cleared? && store.loading == Ready
      modifies this, store
      ensures Valid() && store == old(store) && Some(Abstract()) == Next(old(Abstract()), Event.Put(id))
    {
      NextKeeps(Abstract(), Event.Put(id));
      store.Put(id, RecordOf(calls[id].request));
      Move(id, Queued);
    }

    method BeginFlush()
      requires Valid() && store.queue != [] && store.flight.None?
      modifies store
      ensures Valid() && Some(Abstract()) == Next(old(Abstract()), Event.BeginFlush)
    {
      NextKeeps(Abstract(), Event.BeginFlush);
      store.BeginFlush();
    }

    /** The temporary file takes the place of the file. */
    method Rename()
      requires Valid() && store.flight.Some?
      modifies this, store
      ensures Valid() && store == old(store) && Some(Abstract()) == Next(old(Abstract()), Event.Rename)
    {
      NextKeeps(Abstract(), Event.Rename);
      disk := Some(store.flight.value.snapshot);
      store.Renamed(store.flight.value);
    }

    method FlushFails()
      requires Valid() && store.flight.Some?
      modifies this, store
      ensures Valid() && store == old(store) && Some(Abstract()) == Next(old(Abstract()), Event.FlushFails)
    {
      FlightHasClient(Abstract());
      NextKeeps(Abstract(), Event.FlushFails);
      var id := store.flight.value.ticket;
      store.EndFlush();
      Move(id, Refused);
    }

    method Acknowledge()
      requires Valid() && store.flight.Some? && store.flight.value.renamed
      modifies this, store
      ensures Valid() && store == old(store) && Some(Abstract()) == Next(old(Abstract()), Event.Acknowledge)
    {
      FlightHasClient(Abstract());
      NextKeeps(Abstract(), Event.Acknowledge);
      var id := store.flight.value.ticket;
      ghost var r := calls[id].request;
      store.EndFlush();
      Move(id, Acknowledged);
      acks := acks + {Ack(r.node, r.nonce)};
    }

    /** The process dies and is started again. */
    method Crash()
      requires Valid()
      modifies this
      ensures Valid() && fresh(store) && Some(Abstract()) == Next(old(Abstract()), Event.Crash)
    {
      NextKeeps(Abstract(), Event.Crash);
      store := new FileEnvelopeStore();
      calls, clients := map[], map[];
    }
  }

  /** Whoever waits for the flush under way is still there. */
  lemma {:induction false} FlightHasClient(s: Gateway)
    requires Durable(s) && s.file.flight.Some?
    ensures s.file.flight.value.ticket in s.clients
  {
  }
}
