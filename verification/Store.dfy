/** The gateway's envelope stores (gateway/src/store/memory.ts and gateway/src/store/file.ts).

    Both keep the latest record of each node and a ledger of the highest nonce ever accepted for
    it. Nodes are given by their key, the lower-cased node hash. */
module Store {
  import opened Utf

  /** `body` stands for the name, envelope text, publication time and publisher of a record. */
  datatype Record = Record(node: Text, nonce: int, body: Text)

  datatype Content = Content(records: map<Text, Record>, nonces: map<Text, int>)

  const EMPTY := Content(map[], map[])

  function Ledger(c: Content, node: Text): int {
    if node in c.nonces then c.nonces[node] else 0
  }

  /** The record is replaced; the ledger only ever rises. */
  function Write(c: Content, r: Record): Content {
    Content(c.records[r.node := r], if r.nonce > Ledger(c, r.node) then c.nonces[r.node := r.nonce] else c.nonces)
  }

  function WriteAll(c: Content, rs: seq<Record>, n: nat): Content
    requires n <= |rs|
  {
    if n == 0 then c else Write(WriteAll(c, rs, n - 1), rs[n - 1])
  }

  /** No ledger entry of `c` exceeds that of `d`. */
  ghost predicate Below(c: Content, d: Content) {
    forall k :: Ledger(c, k) <= Ledger(d, k)
  }

  /** Every stored record carries the ledger nonce of its node. */
  ghost predicate Agrees(c: Content) {
    forall k :: k in c.records ==> c.records[k].nonce == Ledger(c, k)
  }

  lemma {:induction false} LedgerAfterWrite(c: Content, r: Record)
    ensures Below(c, Write(c, r)) && Ledger(Write(c, r), r.node) >= r.nonce
    ensures forall k :: k != r.node ==> Ledger(Write(c, r), k) == Ledger(c, k)
    ensures Ledger(Write(c, r), r.node) == if r.nonce > Ledger(c, r.node) then r.nonce else Ledger(c, r.node)
  {
  }

  /** A write keeps records and ledger together exactly when its nonce is not below the ledger. */
  lemma {:induction false} WriteAgreesExactly(c: Content, r: Record)
    requires Agrees(c)
    ensures Agrees(Write(c, r)) <==> r.nonce >= Ledger(c, r.node)
  {
    var d := Write(c, r);
    assert d.records[r.node] == r;
  }

  function MaxNonce(rs: seq<Record>, n: nat, node: Text): int
    requires n <= |rs|
  {
    if n == 0 then 0
    else
      var m := MaxNonce(rs, n - 1, node);
      if rs[n - 1].node == node && rs[n - 1].nonce > m then rs[n - 1].nonce else m
  }

  function LastRecord(rs: seq<Record>, n: nat, node: Text): Option<Record>
    requires n <= |rs|
  {
    if n == 0 then None
    else if rs[n - 1].node == node then Some(rs[n - 1])
    else LastRecord(rs, n - 1, node)
  }

  /** A store that took any list of writes holds, per node, the last record and the largest nonce. */
  lemma {:induction false} StoreHoldsLastAndLargest(rs: seq<Record>, n: nat, node: Text)
    requires n <= |rs|
    ensures var c := WriteAll(EMPTY, rs, n);
      && Ledger(c, node) == MaxNonce(rs, n, node)
      && (node in c.records <==> LastRecord(rs, n, node).Some?)
      && (node in c.records ==> c.records[node] == LastRecord(rs, n, node).value)
  {
    if n > 0 {
      StoreHoldsLastAndLargest(rs, n - 1, node);
    }
  }

  class MemoryEnvelopeStore {
    var records: map<Text, Record>
    var nonces: map<Text, int>

    function Contents(): Content
      reads this
    {
      Content(records, nonces)
    }

    constructor (seed: seq<Record>)
      ensures Contents() == WriteAll(EMPTY, seed, |seed|)
    {
      records, nonces := map[], map[];
      new;
      for i := 0 to |seed|
        invariant Contents() == WriteAll(EMPTY, seed, i)
      {
        Put(seed[i]);
      }
    }

    method Put(r: Record)
      modifies this
      ensures Contents() == Write(old(Contents()), r)
    {
      records := records[r.node := r];
      var seen := if r.node in nonces then nonces[r.node] else 0;
      if r.nonce > seen {
        nonces := nonces[r.node := r.nonce];
      }
    }
  }

  /** Whether the file has been read into memory; a failed read is remembered until restart. */
  datatype Loading = Unloaded | Ready | Broken

  /** What reading the file gave. `Unreadable` also covers a file that does not parse. */
  datatype Reading = Missing | Unreadable | Held(content: Content)

  /** A flush under way: who waits for it, what it writes, and whether the rename has happened. */
  datatype Flight = Flight(ticket: nat, snapshot: Content, renamed: bool)

  datatype FileState = FileState(memory: Content, loading: Loading, queue: seq<nat>, flight: Option<Flight>)

  const FRESH := FileState(EMPTY, Unloaded, [], None)

  function Loaded(s: FileState, r: Reading): FileState {
    match r
    case Missing => s.(loading := Ready)
    case Unreadable => s.(loading := Broken)
    case Held(content) => s.(memory := content, loading := Ready)
  }

  function Stored(s: FileState, ticket: nat, r: Record): FileState {
    s.(memory := Write(s.memory, r), queue := s.queue + [ticket])
  }

  function Flushing(s: FileState): FileState
    requires s.queue != []
  {
    s.(queue := s.queue[1..], flight := Some(Flight(s.queue[0], s.memory, false)))
  }

  /** The file store. Each method is what runs between two awaits of the source: the pending
      flushes form the chain of promises `#writes`. */
  class FileEnvelopeStore {
    var records: map<Text, Record>
    var nonces: map<Text, int>
    var loading: Loading
    var queue: seq<nat>
    var flight: Option<Flight>

    function Abstract(): FileState
      reads this
    {
      FileState(Content(records, nonces), loading, queue, flight)
    }

    constructor ()
      ensures Abstract() == FRESH
    {
      records, nonces, loading, queue, flight := map[], map[], Unloaded, [], None;
    }

    method Load(r: Reading)
      requires loading == Unloaded
      modifies this
      ensures Abstract() == Loaded(old(Abstract()), r)
    {
      match r {
        case Missing => loading := Ready;
        case Unreadable => loading := Broken;
        case Held(content) =>
          records, nonces := content.records, content.nonces;
          loading := Ready;
      }
    }

    method LastNonce(node: Text) returns (n: int)
      requires loading == Ready
      ensures n == Ledger(Abstract().memory, node)
    {
      n := if node in nonces then nonces[node] else 0;
    }

    method Put(ticket: nat, r: Record)
      requires loading == Ready
      modifies this
      ensures Abstract() == Stored(old(Abstract()), ticket, r)
    {
      records := records[r.node := r];
      if r.nonce > (if r.node in nonces then nonces[r.node] else 0) {
        nonces := nonces[r.node := r.nonce];
      }
      queue := queue + [ticket];
    }

    /** The next flush of the chain takes its copy of the maps. */
    method BeginFlush()
      requires queue != [] && flight.None?
      modifies this
      ensures Abstract() == Flushing(old(Abstract()))
    {
      flight := Some(Flight(queue[0], Content(records, nonces), false));
      queue := queue[1..];
    }

    /** The rename returned. */
    method Renamed(f: Flight)
      requires flight == Some(f)
      modifies this
      ensures Abstract() == old(Abstract()).(flight := Some(f.(renamed := true)))
    {
      flight := Some(f.(renamed := true));
    }

    /** The flush settled, either way: the chain goes on. */
    method EndFlush()
      modifies this
      ensures Abstract() == old(Abstract()).(flight := None)
    {
      flight := None;
    }
  }
}
