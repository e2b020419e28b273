/** The feed-backed gateway (gateway/src/store/swarm-feed.ts) and the lookup that signs what it
    returns (`serveLookup` in gateway/src/app.ts), with any number of reads in flight at once.

    Times are whole seconds of one clock that never goes back. The feed itself is a parameter: what
    it holds under each key at each instant. */
module Feed {
  import opened Utf
  import Runs

  datatype Envelope = Envelope(text: Text, expires: int)

  datatype Entry = Entry(record: Option<Envelope>, fetchedAt: int)

  /** `latency` bounds how long a read that succeeds may take. */
  datatype Config = Config(cacheTtl: int, signatureTtl: int, responseTtl: int, latency: nat)

  function Min(a: int, b: int): int { if a < b then a else b }
  function Max(a: int, b: int): int { if a < b then b else a }

  // Signing a lookup

  datatype Lookup = NotFound | Gone | Signed(envelope: Envelope, expires: int, maxAge: int)

  /** `serveLookup` after the store has answered. */
  function Serve(c: Config, record: Option<Envelope>, now: int): Lookup {
    match record
    case None => NotFound
    case Some(e) =>
      if e.expires <= now then Gone
      else
        var expires := Min(now + c.signatureTtl, e.expires);
        Signed(e, expires, Max(0, Min(c.responseTtl, expires - now)))
  }

  /** An unexpired envelope is always served. Its signature expires at the last second that is within the
      signature's lifetime and not after the envelope, and the response may be cached for the longest
      time that is within the cache lifetime and not after the signature. */
  lemma {:induction false} SignedInTime(c: Config, record: Option<Envelope>, now: int)
    requires c.signatureTtl > 0
    ensures var r := Serve(c, record, now);
      && (r.Signed? <==> record.Some? && record.value.expires > now)
      && (r.Signed? ==>
            && now < r.expires <= r.envelope.expires && r.expires <= now + c.signatureTtl
            && 0 <= r.maxAge && now + r.maxAge <= r.expires && r.maxAge <= Max(0, c.responseTtl))
      && (r.Signed? ==>
            && r.envelope == record.value
            && (r.expires == now + c.signatureTtl || r.expires == r.envelope.expires)
            && (r.maxAge == Max(0, c.responseTtl) || now + r.maxAge == r.expires))
  {
  }

  // The store

  predicate IsFresh(c: Config, e: Entry, now: int) {
    now - e.fetchedAt < c.cacheTtl && (e.record.None? || e.record.value.expires > now)
  }

  /** A read in flight: when it began and the cache entry found before it began. */
  datatype Reader = Reader(key: Text, started: int, cached: Option<Entry>)

  /** How an answer was come by: from the cache, from the feed, or from an old cache entry because
      the feed could not be read. */
  datatype Origin = Cached | Read | Fallback

  datatype Served = Served(key: Text, at: int, origin: Origin, record: Option<Envelope>)

  /** The store's fields, the reads in flight, and a log of the answers given. */
  datatype State = State(
    cache: map<Text, Entry>, readers: map<nat, Reader>, lastFailure: Option<int>,
    served: seq<Served>, clock: int)

  datatype Event =
    | Get(id: nat, key: Text, now: int)
    | Answer(id: nat, seen: int, now: int)
    | Fail(id: nat, now: int)

  type Contents = (Text, int) -> Option<Envelope>

  function Held(s: State, key: Text): Option<Entry> {
    if key in s.cache then Some(s.cache[key]) else None
  }

  /** What a failed read falls back on. */
  function FallbackOf(r: Reader, now: int): Option<Envelope> {
    if r.cached.Some? && r.cached.value.record.Some? && r.cached.value.record.value.expires > now
    then r.cached.value.record else None
  }

  /** One stretch of `get` between awaits. An answer shows what the feed held at some instant
      `seen` between the start of the read and now. */
  function Next(c: Config, feed: Contents, s: State, e: Event): Option<State> {
    if e.now < s.clock then None
    else
      match e
      case Get(id, key, now) =>
        var cached := Held(s, key);
        if cached.Some? && IsFresh(c, cached.value, now) then
          Some(s.(served := s.served + [Served(key, now, Cached, cached.value.record)], clock := now))
        else if id in s.readers then None
        else Some(s.(readers := s.readers[id := Reader(key, now, cached)], clock := now))
      case Answer(id, seen, now) =>
        if id !in s.readers || !(s.readers[id].started <= seen <= now <= s.readers[id].started + c.latency) then None
        else
          var key := s.readers[id].key;
          var record := feed(key, seen);
          Some(State(s.cache[key := Entry(record, now)], s.readers - {id}, None,
                     s.served + [Served(key, now, Read, record)], now))
      case Fail(id, now) =>
        if id !in s.readers then None
        else
          var r := s.readers[id];
          var record := FallbackOf(r, now);
          Some(State(s.cache, s.readers - {id}, Some(now), s.served + [Served(r.key, now, Fallback, record)], now))
  }

  // What every step keeps

  /** The feed held `record` within the latency before `at`. */
  ghost predicate Recent(c: Config, feed: Contents, key: Text, record: Option<Envelope>, at: int) {
    exists u :: at - c.latency <= u <= at && feed(key, u) == record
  }

  ghost predicate Genuine(c: Config, feed: Contents, key: Text, e: Entry, clock: int) {
    e.fetchedAt <= clock && Recent(c, feed, key, e.record, e.fetchedAt)
  }

  /** How old what was served may be. */
  ghost predicate Accounted(c: Config, feed: Contents, r: Served) {
    match r.origin
    case Read => Recent(c, feed, r.key, r.record, r.at)
    case Cached => exists t :: t <= r.at < t + c.cacheTtl && Recent(c, feed, r.key, r.record, t)
    case Fallback =>
      r.record.Some? ==> r.record.value.expires > r.at && exists t :: t <= r.at && Recent(c, feed, r.key, r.record, t)
  }

  ghost predicate Inv(c: Config, feed: Contents, s: State) {
    && (forall k :: k in s.cache ==> Genuine(c, feed, k, s.cache[k], s.clock))
    && (forall id :: id in s.readers && s.readers[id].cached.Some? ==>
          Genuine(c, feed, s.readers[id].key, s.readers[id].cached.value, s.clock))
    && forall i :: 0 <= i < |s.served| ==> Accounted(c, feed, s.served[i])
  }

  lemma {:induction false} AnswerRecent(c: Config, feed: Contents, s: State, id: nat, seen: int, now: int)
    requires Next(c, feed, s, Answer(id, seen, now)).Some?
    ensures Recent(c, feed, s.readers[id].key, feed(s.readers[id].key, seen), now)
  {
    assert now - c.latency <= seen <= now;
  }

  lemma {:induction false} NextKeeps(c: Config, feed: Contents, s: State, e: Event)
    requires Inv(c, feed, s) && Next(c, feed, s, e).Some?
    ensures Inv(c, feed, Next(c, feed, s, e).value)
  {
    hide Recent;
    match e
    case Get(id, key, now) =>
    case Answer(id, seen, now) => AnswerRecent(c, feed, s, id, seen, now);
    case Fail(id, now) =>
  }

  /** A cached answer is given without reading the feed exactly while it is younger than the cache
      lifetime and the envelope in it has not expired. */
  lemma {:induction false} CacheAnswersExactly(c: Config, feed: Contents, s: State, id: nat, key: Text, now: int)
    requires now >= s.clock && id !in s.readers
    ensures var t := Next(c, feed, s, Get(id, key, now));
      && t.Some? && t.value.cache == s.cache
      && (id !in t.value.readers <==>
        && key in s.cache && now < s.cache[key].fetchedAt + c.cacheTtl
        && (s.cache[key].record.Some? ==> now < s.cache[key].record.value.expires))
      && (id !in t.value.readers ==> t.value.served == s.served + [Served(key, now, Cached, s.cache[key].record)])
      && (id in t.value.readers ==> t.value.served == s.served)
  {
  }

  const START := State(map[], map[], None, [], 0)

  function Step(c: Config, feed: Contents): (State, Event) -> Option<State> {
    (s: State, e: Event) => Next(c, feed, s, e)
  }

  function Run(c: Config, feed: Contents, es: seq<Event>, n: nat): Option<State>
    requires n <= |es|
  {
    Runs.After(Step(c, feed), START, es, n)
  }

  lemma {:induction false} RunKeeps(c: Config, feed: Contents, es: seq<Event>, n: nat)
    requires n <= |es| && Run(c, feed, es, n).Some?
    ensures Inv(c, feed, Run(c, feed, es, n).value)
  {
    if n > 0 {
      RunKeeps(c, feed, es, n - 1);
      hide Inv, Next;
      NextKeeps(c, feed, Run(c, feed, es, n - 1).value, es[n - 1]);
    }
  }

  // Staleness

  /** Whatever the interleaving of reads, an answer that does not come from a failed read shows what
      the feed held at an instant no further back than the latency and the cache lifetime. */
  lemma {:induction false} ShowsRecentFeed(c: Config, feed: Contents, es: seq<Event>, i: nat) returns (u: int)
    requires c.cacheTtl >= 0 && Run(c, feed, es, |es|).Some? && i < |Run(c, feed, es, |es|).value.served|
    requires !Run(c, feed, es, |es|).value.served[i].origin.Fallback?
    ensures var r := Run(c, feed, es, |es|).value.served[i];
      r.at - c.latency - c.cacheTtl <= u <= r.at && feed(r.key, u) == r.record
  {
    RunKeeps(c, feed, es, |es|);
    var r := Run(c, feed, es, |es|).value.served[i];
    assert Accounted(c, feed, r);
    if r.origin.Read? {
      u :| r.at - c.latency <= u <= r.at && feed(r.key, u) == r.record;
    } else {
      var t :| t <= r.at < t + c.cacheTtl && Recent(c, feed, r.key, r.record, t);
      u :| t - c.latency <= u <= t && feed(r.key, u) == r.record;
    }
  }

  /** From `from` on the feed no longer shows `e` under `key`. */
  ghost predicate Superseded(feed: Contents, key: Text, e: Envelope, from: int) {
    forall u :: u >= from ==> feed(key, u) != Some(e)
  }

  /** While reads succeed, a signed response that carries a superseded envelope expires less than
      latency, cache lifetime, signature lifetime and the wait between answer and signature after it
      was superseded. */
  lemma {:induction false} StalenessBound(c: Config, feed: Contents, es: seq<Event>, i: nat, from: int, signed: int)
    requires c.cacheTtl >= 0 && Run(c, feed, es, |es|).Some? && i < |Run(c, feed, es, |es|).value.served|
    requires var r := Run(c, feed, es, |es|).value.served[i];
      && !r.origin.Fallback? && r.record.Some? && Superseded(feed, r.key, r.record.value, from)
      && signed >= r.at
    ensures var r := Run(c, feed, es, |es|).value.served[i];
      Serve(c, r.record, signed).Signed? ==>
        Serve(c, r.record, signed).expires < from + c.latency + c.cacheTtl + c.signatureTtl + (signed - r.at)
  {
    var u := ShowsRecentFeed(c, feed, es, i);
    assert u < from;
  }

  /** While reads succeed, an envelope that stays in the feed from `from` on is what every answer
      carries once latency and cache lifetime have passed. */
  lemma {:induction false} FreshnessBound(c: Config, feed: Contents, es: seq<Event>, i: nat, from: int, e: Envelope)
    requires c.cacheTtl >= 0 && Run(c, feed, es, |es|).Some? && i < |Run(c, feed, es, |es|).value.served|
    requires var r := Run(c, feed, es, |es|).value.served[i];
      && !r.origin.Fallback? && r.at >= from + c.latency + c.cacheTtl
      && forall u :: u >= from ==> feed(r.key, u) == Some(e)
    ensures Run(c, feed, es, |es|).value.served[i].record == Some(e)
  {
    var u := ShowsRecentFeed(c, feed, es, i);
  }

  /** When reads fail: what is served was in the feed once, and its own expiry still binds. */
  lemma {:induction false} FallbackBound(c: Config, feed: Contents, es: seq<Event>, i: nat, signed: int)
    requires Run(c, feed, es, |es|).Some? && i < |Run(c, feed, es, |es|).value.served|
    requires var r := Run(c, feed, es, |es|).value.served[i];
      r.origin.Fallback? && r.record.Some? && signed >= r.at
    ensures var r := Run(c, feed, es, |es|).value.served[i];
      && r.record.value.expires > r.at
      && (exists u :: u <= r.at && feed(r.key, u) == r.record)
      && (Serve(c, r.record, signed).Signed? <==> signed < r.record.value.expires)
      && (Serve(c, r.record, signed).Signed? ==> Serve(c, r.record, signed).expires <= r.record.value.expires)
  {
    RunKeeps(c, feed, es, |es|);
    var r := Run(c, feed, es, |es|).value.served[i];
    assert Accounted(c, feed, r);
    var t :| t <= r.at && Recent(c, feed, r.key, r.record, t);
    var u :| t - c.latency <= u <= t && feed(r.key, u) == r.record;
    assert u <= r.at;
  }

  /** A feed that shows one envelope until second 1 and nothing afterwards. */
  function Withdrawn(e: Envelope): Contents {
    (key: Text, u: int) => if u < 1 then Some(e) else None
  }

  /** The bound for successful reads does not hold once they fail: an envelope withdrawn at second 1
      is still signed at any later second before its own expiry. */
  lemma {:induction false} FallbackIsUnbounded(c: Config, key: Text, late: int)
    requires late >= 1 && late >= c.cacheTtl
    ensures var e, es := Envelope([], late + 1), [Get(0, key, 0), Answer(0, 0, 0), Get(0, key, late), Fail(0, late)];
      && Run(c, Withdrawn(e), es, 4).Some?
      && Superseded(Withdrawn(e), key, e, 1)
      && Run(c, Withdrawn(e), es, 4).value.served[1..] == [Served(key, late, Fallback, Some(e))]
      && Serve(c, Some(e), late).Signed?
  {
    var e := Envelope([], late + 1);
    var feed, es := Withdrawn(e), [Get(0, key, 0), Answer(0, 0, 0), Get(0, key, late), Fail(0, late)];
    assert Run(c, feed, es, 0) == Some(START);
    assert Run(c, feed, es, 1) == Next(c, feed, START, es[0]);
    var s1 := Run(c, feed, es, 1).value;
    assert Run(c, feed, es, 2) == Next(c, feed, s1, es[1]);
    var s2 := Run(c, feed, es, 2).value;
    assert Run(c, feed, es, 3) == Next(c, feed, s2, es[2]);
    var s3 := Run(c, feed, es, 3).value;
    assert Run(c, feed, es, 4) == Next(c, feed, s3, es[3]);
  }

  // The object

  /** The store. `readers` are the calls of `get` that wait for the feed, with the local variables
      they hold; `feed`, the clock and the log of answers are ghost. */
  class SwarmFeedEnvelopeStore {
    const config: Config
    ghost const feed: Contents
    var cache: map<Text, Entry>
    var lastFailure: Option<int>
    var readers: map<nat, Reader>
    ghost var served: seq<Served>
    ghost var clock: int

    ghost function Abstract(): State
      reads this
    {
      State(cache, readers, lastFailure, served, clock)
    }

    ghost predicate Valid()
      reads this
    {
      Inv(config, feed, Abstract())
    }

    constructor (config: Config, ghost feed: Contents)
      ensures this.config == config && this.feed == feed
      ensures Valid() && Abstract() == START
    {
      this.config, this.feed := config, feed;
      cache, lastFailure, readers := map[], None, map[];
      served, clock := [], 0;
    }

    method IsCurrent(entry: Entry, now: int) returns (current: bool)
      ensures current == IsFresh(config, entry, now)
    {
      if now - entry.fetchedAt >= config.cacheTtl {
        return false;
      }
      return entry.record.None? || entry.record.value.expires > now;
    }

    /** `get` up to its first await: an answer from the cache, or nothing yet. */
    method Get(id: nat, key: Text, now: int) returns (answer: Option<Option<Envelope>>)
      requires Valid() && now >= clock && id !in readers
      modifies this
      ensures Valid() && Some(Abstract()) == Next(config, feed, old(Abstract()), Event.Get(id, key, now))
      ensures answer.None? <==> id in readers
      ensures answer.Some? ==> served == old(served) + [Served(key, now, Cached, answer.value)]
    {
      NextKeeps(config, feed, Abstract(), Event.Get(id, key, now));
      var cached := if key in cache then Some(cache[key]) else None;
      clock := now;
      if cached.Some? {
        var current := IsCurrent(cached.value, now);
        if current {
          served := served + [Served(key, now, Cached, cached.value.record)];
          return Some(cached.value.record);
        }
      }
      readers := readers[id := Reader(key, now, cached)];
      return None;
    }

    /** `get` after the feed answered with what it held at `seen`. */
    method Answer(id: nat, record: Option<Envelope>, ghost seen: int, now: int) returns (answer: Option<Envelope>)
      requires Valid() && now >= clock && id in readers
      requires readers[id].started <= seen <= now <= readers[id].started + config.latency
      requires record == feed(readers[id].key, seen)
      modifies this
      ensures Valid() && Some(Abstract()) == Next(config, feed, old(Abstract()), Event.Answer(id, seen, now))
      ensures served == old(served) + [Served(old(readers[id].key), now, Read, answer)]
    {
      NextKeeps(config, feed, Abstract(), Event.Answer(id, seen, now));
      lastFailure := None;
      cache := cache[readers[id].key := Entry(record, now)];
      served, clock := served + [Served(readers[id].key, now, Read, record)], now;
      readers := readers - {id};
      return record;
    }

    /** `get` after the feed could not be read. */
    method Fail(id: nat, now: int) returns (answer: Option<Envelope>)
      requires Valid() && now >= clock && id in readers
      modifies this
      ensures Valid() && Some(Abstract()) == Next(config, feed, old(Abstract()), Event.Fail(id, now))
      ensures served == old(served) + [Served(old(readers[id].key), now, Fallback, answer)]
    {
      NextKeeps(config, feed, Abstract(), Event.Fail(id, now));
      lastFailure := Some(now);
      var cached := readers[id].cached;
      answer := None;
      if cached.Some? && cached.value.record.Some? && cached.value.record.value.expires > now {
        answer := cached.value.record;
      }
      served, clock := served + [Served(readers[id].key, now, Fallback, answer)], now;
      readers := readers - {id};
    }
  }
}
