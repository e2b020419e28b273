/** The life of a Solana attestation: `issue`, `revoke` and `close` (solana/src/issue.ts,
    solana/src/revoke.ts) as steps over a ledger, and `verify` (solana/src/verify.ts) as its observer.

    A step of the issuer first reads the ledger and checks its guards; its transaction lands later,
    and other transactions may land in between. The ledger accepts a creation only where no account
    is, and a close only where one is. Attestations are named by their subject, from which their
    address is derived. */
module Attestation {
  import opened Utf
  import Runs

  type Subject = nat

  /** An attestation account. `expiry` 0 means it never lapses. */
  datatype Account = Account(referenceId: Text, commitment: Text, expiry: int, tokenized: bool)

  /** The schema account, and whether its layout and fields are those expected. */
  datatype Schema = Schema(paused: bool, expected: bool)

  /** An instruction as `identifyClosingInstruction` sees it: another program's or one without data,
      one it cannot name, or one it can. */
  datatype Kind = Foreign | Unnamed | Create(account: Account) | CloseAttestation | CloseTokenizedAttestation | Other

  /** `target` is the attestation of this issuer a close or creation is about, if it is one; the
      observer does not look at it. */
  datatype Instruction = Instruction(kind: Kind, target: Option<Subject>)

  /** A transaction: its signature, whether it succeeded, the attestation addresses it names, and its
      instructions, inner ones last. */
  datatype Transaction = Transaction(signature: nat, ok: bool, names: set<Subject>, instructions: seq<Instruction>)

  datatype Intent = Issuing(account: Account) | Closing(read: Account, requireExpired: bool)

  datatype Pending = Pending(subject: Subject, intent: Intent)

  /** `history` is every transaction, oldest first. */
  datatype Ledger = Ledger(
    schema: Option<Schema>, accounts: map<Subject, Account>, history: seq<Transaction>, now: int,
    pending: map<nat, Pending>)

  const START := Ledger(None, map[], [], 0, map[])

  // Guards

  datatype Guard = Allowed | NotInitialized | SchemaDrift | AlreadyExists | NothingThere | WrongReference | NotExpired

  /** The checks of `issue`, in order. */
  function IssueGuard(s: Ledger, subject: Subject): Guard {
    if s.schema.None? then NotInitialized
    else if !s.schema.value.expected then SchemaDrift
    else if subject in s.accounts then AlreadyExists
    else Allowed
  }

  /** The checks of `closeAttestation`, in order. */
  function CloseGuard(s: Ledger, subject: Subject, referenceId: Option<Text>, requireExpired: bool): Guard {
    if subject !in s.accounts then NothingThere
    else if s.schema.None? then NotInitialized
    else if !s.schema.value.expected then SchemaDrift
    else
      var account := s.accounts[subject];
      if referenceId.Some? && referenceId.value != account.referenceId then WrongReference
      else if requireExpired && (account.expiry == 0 || account.expiry > s.now) then NotExpired
      else Allowed
  }

  /** The expiry test of `verify`. */
  predicate Lapsed(a: Account, now: int) { a.expiry != 0 && a.expiry <= now }

  function CloseKind(tokenized: bool): Kind { if tokenized then CloseTokenizedAttestation else CloseAttestation }

  // Steps

  datatype Event =
    | SetSchema(schema: Schema)
    | Tick(now: int)
    | PrepareIssue(id: nat, subject: Subject, account: Account)
    | PrepareClose(id: nat, subject: Subject, referenceId: Option<Text>, requireExpired: bool)
    | Land(id: nat)
    | ByOthers(ok: bool, names: set<Subject>, instructions: seq<Instruction>)

  function Append(s: Ledger, ok: bool, names: set<Subject>, instructions: seq<Instruction>): Ledger {
    s.(history := s.history + [Transaction(|s.history|, ok, names, instructions)])
  }

  /** The transaction of a pending step reaches the ledger. */
  function Landed(s: Ledger, p: Pending): Ledger {
    match p.intent
    case Issuing(account) =>
      var fits := p.subject !in s.accounts;
      var t := Append(s, fits, {p.subject}, [Instruction(Create(account), Some(p.subject))]);
      if fits then t.(accounts := s.accounts[p.subject := account]) else t
    case Closing(read, _) =>
      var fits := p.subject in s.accounts && s.accounts[p.subject].tokenized == read.tokenized;
      var t := Append(s, fits, {p.subject}, [Instruction(CloseKind(read.tokenized), Some(p.subject))]);
      if fits then t.(accounts := s.accounts - {p.subject}) else t
  }

  predicate IsClose(k: Kind) { k.CloseAttestation? || k.CloseTokenizedAttestation? }

  /** The instruction creates or closes the subject's attestation. */
  predicate About(i: Instruction, subject: Subject) {
    (i.kind.Create? || IsClose(i.kind)) && i.target == Some(subject)
  }

  /** No attestation of this issuer is created or closed. */
  predicate NotOurs(ins: seq<Instruction>) {
    forall i :: 0 <= i < |ins| && (ins[i].kind.Create? || IsClose(ins[i].kind)) ==> ins[i].target == None
  }

  /** One step; `None` when it cannot happen. Others may name any address and may close attestations
      of their own, but a transaction of theirs that touches these does not succeed. */
  function Next(s: Ledger, e: Event): Option<Ledger> {
    match e
    case SetSchema(schema) => Some(s.(schema := Some(schema)))
    case Tick(now) => if now < s.now then None else Some(s.(now := now))
    case PrepareIssue(id, subject, account) =>
      if id in s.pending || IssueGuard(s, subject) != Allowed || !account.tokenized || account.expiry < 0 then None
      else Some(s.(pending := s.pending[id := Pending(subject, Issuing(account))]))
    case PrepareClose(id, subject, referenceId, requireExpired) =>
      if id in s.pending || CloseGuard(s, subject, referenceId, requireExpired) != Allowed then None
      else Some(s.(pending := s.pending[id := Pending(subject, Closing(s.accounts[subject], requireExpired))]))
    case Land(id) =>
      if id !in s.pending then None
      else Some(Landed(s, s.pending[id]).(pending := s.pending - {id}))
    case ByOthers(ok, names, instructions) =>
      if ok && !NotOurs(instructions) then None else Some(Append(s, ok, names, instructions))
  }

  function After(es: seq<Event>, n: nat): Option<Ledger>
    requires n <= |es|
  {
    Runs.After(Next, START, es, n)
  }

  ghost predicate Happens(es: seq<Event>, n: nat) { n <= |es| && After(es, n).Some? }

  // The observer

  /** What the RPC node can still show: the list of signatures, and single transactions. */
  datatype Rpc = Rpc(listed: bool, readable: nat -> bool)

  const ALL_READABLE := Rpc(true, _ => true)

  const SIGNATURES := 20
  const MAX_HISTORY_TRANSACTIONS := 5

  /** `getSignaturesForAddress`: the transactions naming the address, newest first. */
  function Newest(h: seq<Transaction>, n: nat, subject: Subject, limit: nat): (r: seq<Transaction>)
    requires n <= |h|
    ensures |r| <= limit
    ensures forall i :: 0 <= i < |r| ==> r[i] in h && subject in r[i].names
  {
    if n == 0 || limit == 0 then []
    else if subject in h[n - 1].names then [h[n - 1]] + Newest(h, n - 1, subject, limit - 1)
    else Newest(h, n - 1, subject, limit)
  }

  function Successful(ts: seq<Transaction>): (r: seq<Transaction>)
    ensures |r| <= |ts| && forall i :: 0 <= i < |r| ==> r[i] in ts && r[i].ok
  {
    if ts == [] then []
    else if ts[0].ok then [ts[0]] + Successful(ts[1..])
    else Successful(ts[1..])
  }

  /** The transactions inspected: the five newest successful ones among the last twenty. */
  function Inspected(h: seq<Transaction>, subject: Subject): (r: seq<Transaction>)
    ensures |r| <= MAX_HISTORY_TRANSACTIONS
  {
    var s := Successful(Newest(h, |h|, subject, SIGNATURES));
    if |s| <= MAX_HISTORY_TRANSACTIONS then s else s[..MAX_HISTORY_TRANSACTIONS]
  }

  /** The first close among the first `n` instructions. */
  function FirstClose(ins: seq<Instruction>, n: nat): (r: Option<Instruction>)
    requires n <= |ins|
    ensures r.Some? <==> exists i :: 0 <= i < n && IsClose(ins[i].kind)
    ensures r.Some? ==> r.value in ins[..n] && IsClose(r.value.kind)
  {
    if n == 0 then None
    else if FirstClose(ins, n - 1).Some? then FirstClose(ins, n - 1)
    else if IsClose(ins[n - 1].kind) then Some(ins[n - 1])
    else None
  }

  function CloseIn(t: Transaction): Option<Instruction> { FirstClose(t.instructions, |t.instructions|) }

  function KindOf(i: Option<Instruction>): Option<Kind> { if i.None? then None else Some(i.value.kind) }

  method IdentifyClosingInstruction(rpc: Rpc, t: Transaction) returns (kind: Option<Kind>)
    ensures kind == if rpc.readable(t.signature) then KindOf(CloseIn(t)) else None
  {
    if !rpc.readable(t.signature) {
      return None;
    }
    for i := 0 to |t.instructions|
      invariant FirstClose(t.instructions, i) == None
    {
      match t.instructions[i].kind {
        case CloseTokenizedAttestation => return ClosingAt(t.instructions, i);
        case CloseAttestation => return ClosingAt(t.instructions, i);
        case _ =>
      }
    }
    return None;
  }

  /** The close found at position `i`, when it is the first. */
  function ClosingAt(ins: seq<Instruction>, i: nat): (r: Option<Kind>)
    requires i < |ins| && FirstClose(ins, i) == None && IsClose(ins[i].kind)
    ensures r == KindOf(FirstClose(ins, |ins|))
  {
    FirstCloseStays(ins, i + 1, |ins|);
    Some(ins[i].kind)
  }

  lemma {:induction false} FirstCloseStays(ins: seq<Instruction>, m: nat, n: nat)
    requires m <= n <= |ins| && FirstClose(ins, m).Some?
    ensures FirstClose(ins, n) == FirstClose(ins, m)
  {
    if m < n {
      FirstCloseStays(ins, m, n - 1);
    }
  }

  datatype Evidence = Evidence(signature: nat, kind: Kind)

  function Evident(rpc: Rpc, t: Transaction): Option<Evidence> {
    if !rpc.readable(t.signature) then None
    else
      match CloseIn(t)
      case None => None
      case Some(close) => Some(Evidence(t.signature, close.kind))
  }

  function FirstEvidence(rpc: Rpc, ts: seq<Transaction>, n: nat): (r: Option<Evidence>)
    requires n <= |ts|
    ensures r.Some? <==> exists i :: 0 <= i < n && Evident(rpc, ts[i]).Some?
  {
    if n == 0 then None
    else if FirstEvidence(rpc, ts, n - 1).Some? then FirstEvidence(rpc, ts, n - 1)
    else Evident(rpc, ts[n - 1])
  }

  function RevocationOf(rpc: Rpc, h: seq<Transaction>, subject: Subject): Option<Evidence> {
    if !rpc.listed then None else FirstEvidence(rpc, Inspected(h, subject), |Inspected(h, subject)|)
  }

  method FindRevocation(rpc: Rpc, h: seq<Transaction>, subject: Subject) returns (evidence: Option<Evidence>)
    ensures evidence == RevocationOf(rpc, h, subject)
  {
    if !rpc.listed {
      return None;
    }
    var candidates := Inspected(h, subject);
    for i := 0 to |candidates|
      invariant FirstEvidence(rpc, candidates, i) == None
    {
      var kind := IdentifyClosingInstruction(rpc, candidates[i]);
      if kind.Some? {
        FirstStays(rpc, candidates, i + 1, |candidates|);
        return Some(Evidence(candidates[i].signature, kind.value));
      }
    }
    return None;
  }

  lemma {:induction false} FirstStays(rpc: Rpc, ts: seq<Transaction>, m: nat, n: nat)
    requires m <= n <= |ts| && FirstEvidence(rpc, ts, m).Some?
    ensures FirstEvidence(rpc, ts, n) == FirstEvidence(rpc, ts, m)
  {
    if m < n {
      FirstStays(rpc, ts, m, n - 1);
    }
  }

  datatype Status =
    | Valid | NotFound | Revoked(evidence: Evidence) | Drift
    | ReferenceMismatch | CommitmentMismatch | SchemaPaused | Expired

  /** `verify`: the first test that settles it. `Drift` is a thrown error. */
  function Verify(s: Ledger, subject: Subject, referenceId: Text, commitment: Option<Text>, checkHistory: bool,
      rpc: Rpc): Status {
    if s.schema.None? then NotFound
    else if subject !in s.accounts then
      if !checkHistory || RevocationOf(rpc, s.history, subject).None? then NotFound
      else Revoked(RevocationOf(rpc, s.history, subject).value)
    else if !s.schema.value.expected then Drift
    else
      var a := s.accounts[subject];
      if a.referenceId != referenceId then ReferenceMismatch
      else if commitment.Some? && commitment.value != a.commitment then CommitmentMismatch
      else if s.schema.value.paused then SchemaPaused
      else if a.expiry != 0 && a.expiry <= s.now then Expired
      else Valid
  }

  predicate CarriesClose(t: Transaction) {
    exists i :: 0 <= i < |t.instructions| && IsClose(t.instructions[i].kind)
  }

  // The ledger against its history

  function Lookup(s: Ledger, subject: Subject): Option<Account> {
    if subject in s.accounts then Some(s.accounts[subject]) else None
  }

  /** The transaction issued `a` to the subject. */
  predicate Creates(t: Transaction, subject: Subject, a: Account) {
    t.ok && Instruction(Create(a), Some(subject)) in t.instructions
  }

  /** The transaction closed the subject's attestation. */
  predicate Closes(t: Transaction, subject: Subject) {
    && t.ok
    && exists i :: 0 <= i < |t.instructions| && About(t.instructions[i], subject) && IsClose(t.instructions[i].kind)
  }

  predicate Touches(t: Transaction, subject: Subject) {
    t.ok && exists i :: 0 <= i < |t.instructions| && About(t.instructions[i], subject)
  }

  /** The last successful transaction on the subject's attestation is entry `k`, which issued `a`. */
  predicate LastIssued(h: seq<Transaction>, k: nat, subject: Subject, a: Account) {
    && k < |h| && Creates(h[k], subject, a)
    && forall m :: k < m < |h| ==> !Touches(h[m], subject)
  }

  /** What a transaction did to one subject's account. */
  ghost predicate Accounted(before: Option<Account>, t: Transaction, subject: Subject, after: Option<Account>) {
    && (!Touches(t, subject) ==> after == before)
    && (forall a :: Creates(t, subject, a) ==> before == None && after == Some(a))
    && (Closes(t, subject) ==> before.Some? && after == None)
    && (Touches(t, subject) ==> Closes(t, subject) || (after.Some? && Creates(t, subject, after.value)))
  }

  lemma {:induction false} LandedAccounted(s: Ledger, p: Pending, subject: Subject)
    ensures var t := Landed(s, p);
      && t.history == s.history + [t.history[|s.history|]] && t.history[|s.history|].signature == |s.history|
      && Accounted(Lookup(s, subject), t.history[|s.history|], subject, Lookup(t, subject))
  {
    var x := Landed(s, p).history[|s.history|];
    assert About(x.instructions[0], p.subject);
    assert forall a :: Creates(x, subject, a) ==> x.instructions[0] == Instruction(Create(a), Some(subject));
  }

  /** A step leaves history and accounts alone, or adds one transaction that accounts for the change. */
  lemma {:induction false} StepAccounted(s: Ledger, e: Event, subject: Subject)
    requires Next(s, e).Some?
    ensures var t := Next(s, e).value;
      || (t.history == s.history && Lookup(t, subject) == Lookup(s, subject))
      || (&& |t.history| == |s.history| + 1 && t.history[..|s.history|] == s.history
          && t.history[|s.history|].signature == |s.history|
          && Accounted(Lookup(s, subject), t.history[|s.history|], subject, Lookup(t, subject)))
  {
    match e
    case Land(id) => LandedAccounted(s, s.pending[id], subject);
    case ByOthers(ok, names, instructions) =>
      var x := Next(s, e).value.history[|s.history|];
      assert forall i :: 0 <= i < |x.instructions| && x.ok ==> !About(x.instructions[i], subject);
    case _ =>
  }

  /** In every run an account is there exactly when the last successful transaction on it issued it,
      and it is the account issued then: nothing is overwritten and nothing else removes it. */
  lemma {:induction false} StandsExactly(es: seq<Event>, n: nat, subject: Subject, a: Account)
    requires Happens(es, n)
    ensures var s := After(es, n).value;
      Lookup(s, subject) == Some(a) <==> exists k :: LastIssued(s.history, k, subject, a)
  {
    if n > 0 {
      Runs.Happened(Next, START, es, n - 1, n);
      StandsExactly(es, n - 1, subject, a);
      var s, t := After(es, n - 1).value, After(es, n).value;
      StepAccounted(s, es[n - 1], subject);
      if t.history != s.history {
        StandsStep(s, t, subject, a);
      }
    }
  }

  lemma {:induction false} StandsStep(s: Ledger, t: Ledger, subject: Subject, a: Account)
    requires |t.history| == |s.history| + 1 && t.history[..|s.history|] == s.history
    requires Accounted(Lookup(s, subject), t.history[|s.history|], subject, Lookup(t, subject))
    requires Lookup(s, subject) == Some(a) <==> exists k :: LastIssued(s.history, k, subject, a)
    ensures Lookup(t, subject) == Some(a) <==> exists k :: LastIssued(t.history, k, subject, a)
  {
    hide Touches, Creates, Closes;
    var h, x := s.history, t.history[|s.history|];
    assert forall i :: 0 <= i < |h| ==> t.history[i] == h[i];
    if Touches(x, subject) {
      if Lookup(t, subject) == Some(a) {
        assert LastIssued(t.history, |h|, subject, a);
      }
      if k: nat :| LastIssued(t.history, k, subject, a) {
        assert k == |h|;
      }
    } else {
      if k: nat :| LastIssued(h, k, subject, a) {
        assert LastIssued(t.history, k, subject, a);
      }
      if k: nat :| LastIssued(t.history, k, subject, a) {
        CreatesTouches(t.history[k], subject, a);
        assert LastIssued(h, k, subject, a);
      }
    }
  }

  lemma {:induction false} CreatesTouches(t: Transaction, subject: Subject, a: Account)
    requires Creates(t, subject, a)
    ensures Touches(t, subject)
  {
    var i :| 0 <= i < |t.instructions| && t.instructions[i] == Instruction(Create(a), Some(subject));
    assert About(t.instructions[i], subject);
  }

  lemma {:induction false} HistoryGrows(es: seq<Event>, m: nat, n: nat)
    requires m <= n && Happens(es, n)
    ensures Happens(es, m) && After(es, m).value.history <= After(es, n).value.history
    ensures After(es, m).value.schema.Some? ==> After(es, n).value.schema.Some?
    ensures After(es, m).value.now <= After(es, n).value.now
  {
    if m < n {
      Runs.Happened(Next, START, es, n - 1, n);
      HistoryGrows(es, m, n - 1);
    }
  }

  /** Every entry of the history was added by one step. */
  lemma {:induction false} Origin(es: seq<Event>, n: nat, k: nat) returns (m: nat)
    requires Happens(es, n) && k < |After(es, n).value.history|
    ensures m < n && Happens(es, m) && Happens(es, m + 1)
    ensures |After(es, m).value.history| == k
    ensures |After(es, m + 1).value.history| == k + 1
    ensures After(es, m + 1).value.history[k] == After(es, n).value.history[k]
    ensures After(es, m).value.history == After(es, n).value.history[..k]
  {
    Runs.Happened(Next, START, es, n - 1, n);
    var s, t := After(es, n - 1).value, After(es, n).value;
    StepAccounted(s, es[n - 1], 0);
    if k < |s.history| {
      m := Origin(es, n - 1, k);
      assert t.history[..k] == s.history[..k];
    } else {
      m := n - 1;
    }
  }

  /** In every run, between two successful creations for one subject a close of it succeeded: no
      subject ever holds two attestations. */
  lemma {:induction false} CloseBetweenCreations(es: seq<Event>, n: nat, i: nat, j: nat, subject: Subject,
      a: Account, b: Account)
    requires Happens(es, n) && i < j < |After(es, n).value.history|
    requires Creates(After(es, n).value.history[i], subject, a) && Creates(After(es, n).value.history[j], subject, b)
    ensures exists k :: i < k < j && Closes(After(es, n).value.history[k], subject)
    decreases j - i
  {
    hide Touches, Creates, Closes;
    var h := After(es, n).value.history;
    var m := Origin(es, n, j);
    var s := After(es, m).value;
    StepAccounted(s, es[m], subject);
    StandsExactly(es, m, subject, a);
    assert !LastIssued(s.history, i, subject, a);
    var k :| i < k < j && Touches(h[k], subject);
    if !Closes(h[k], subject) {
      var c := Reissued(es, n, k, subject);
      CloseBetweenCreations(es, n, k, j, subject, c, b);
    }
  }

  /** What touches a subject without closing it issues something. */
  lemma {:induction false} Reissued(es: seq<Event>, n: nat, k: nat, subject: Subject) returns (a: Account)
    requires Happens(es, n) && k < |After(es, n).value.history|
    requires Touches(After(es, n).value.history[k], subject) && !Closes(After(es, n).value.history[k], subject)
    ensures Creates(After(es, n).value.history[k], subject, a)
  {
    hide Touches, Creates, Closes;
    var m := Origin(es, n, k);
    StepAccounted(After(es, m).value, es[m], subject);
    a := Lookup(After(es, m + 1).value, subject).value;
  }

  /** A step prepared and not landed since is still the one prepared. */
  lemma {:induction false} Prepared(es: seq<Event>, m: nat, n: nat, id: nat)
    requires m < n <= |es| && Happens(es, n)
    requires (es[m].PrepareIssue? || es[m].PrepareClose?) && es[m].id == id
    requires forall k :: m < k < n ==> es[k] != Land(id)
    ensures Happens(es, m) && Happens(es, m + 1) && id in After(es, m + 1).value.pending
    ensures id in After(es, n).value.pending
    ensures After(es, n).value.pending[id] == After(es, m + 1).value.pending[id]
  {
    Runs.Happened(Next, START, es, m, n);
    Runs.Happened(Next, START, es, m + 1, n);
    if m + 1 < n {
      Runs.Happened(Next, START, es, n - 1, n);
      Prepared(es, m, n - 1, id);
    }
  }

  // Closing what lapsed

  /** A close of the issuer landed at event `m` and took the subject's account. */
  ghost predicate TakenAt(es: seq<Event>, m: nat, subject: Subject) {
    && m < |es| && es[m].Land? && Happens(es, m) && Happens(es, m + 1)
    && subject in After(es, m).value.accounts && subject !in After(es, m + 1).value.accounts
  }

  /** An issue landed at event `m` and gave the subject the account `a`. */
  ghost predicate GivenAt(es: seq<Event>, m: nat, subject: Subject, a: Account) {
    && m < |es| && es[m].Land? && Happens(es, m) && Happens(es, m + 1)
    && subject !in After(es, m).value.accounts && Lookup(After(es, m + 1).value, subject) == Some(a)
  }

  /** One step gives, takes or keeps a subject's account. */
  lemma {:induction false} GivenTakenKept(es: seq<Event>, m: nat, subject: Subject)
    requires m < |es| && Happens(es, m + 1)
    ensures Happens(es, m)
    ensures var s, t := After(es, m).value, After(es, m + 1).value;
      || TakenAt(es, m, subject)
      || (subject in t.accounts && GivenAt(es, m, subject, t.accounts[subject]))
      || Lookup(s, subject) == Lookup(t, subject)
  {
    Runs.Happened(Next, START, es, m, m + 1);
  }

  /** Nothing taken, nothing changed. */
  lemma {:induction false} StandsUntilTaken(es: seq<Event>, m: nat, n: nat, subject: Subject)
    requires m <= n && Happens(es, n)
    requires forall k :: m <= k < n ==> !TakenAt(es, k, subject)
    ensures Happens(es, m)
    ensures subject in After(es, m).value.accounts ==>
      Lookup(After(es, n).value, subject) == Lookup(After(es, m).value, subject)
  {
    hide TakenAt, GivenAt;
    if m < n {
      GivenTakenKept(es, n - 1, subject);
      StandsUntilTaken(es, m, n - 1, subject);
      if subject in After(es, n - 1).value.accounts {
        NotGiven(es, n - 1, subject);
      }
    }
  }

  lemma {:induction false} NotGiven(es: seq<Event>, m: nat, subject: Subject)
    requires Happens(es, m) && subject in After(es, m).value.accounts
    ensures forall a :: !GivenAt(es, m, subject, a)
  {
  }

  /** What stands was there before and never taken, or was given since and not taken after that. */
  lemma {:induction false} Given(es: seq<Event>, m: nat, n: nat, subject: Subject)
    requires m <= n && Happens(es, n) && subject in After(es, n).value.accounts
    ensures Happens(es, m)
    ensures var a := After(es, n).value.accounts[subject];
      || (Lookup(After(es, m).value, subject) == Some(a) && forall k :: m <= k < n ==> !TakenAt(es, k, subject))
      || exists j :: m <= j < n && GivenAt(es, j, subject, a) && forall k :: j < k < n ==> !TakenAt(es, k, subject)
  {
    if m < n {
      GivenTakenKept(es, n - 1, subject);
      assert !TakenAt(es, n - 1, subject);
      Runs.Happened(Next, START, es, m, n);
      var a := After(es, n).value.accounts[subject];
      hide TakenAt;
      if !GivenAt(es, n - 1, subject, a) {
        hide GivenAt;
        Given(es, m, n - 1, subject);
      }
    }
  }

  /** What was there and is gone was taken in between. */
  lemma {:induction false} Taken(es: seq<Event>, m: nat, n: nat, subject: Subject)
    requires m <= n && Happens(es, n) && subject !in After(es, n).value.accounts
    requires Happens(es, m) && subject in After(es, m).value.accounts
    ensures exists k :: m <= k < n && TakenAt(es, k, subject)
  {
    if forall k :: m <= k < n ==> !TakenAt(es, k, subject) {
      StandsUntilTaken(es, m, n, subject);
    }
  }

  /** In every run, an issue that passed its check gives the subject its account unless, when it lands,
      the last thing done to that subject is an issue made since the check. */
  lemma {:induction false} IssueLandsExactly(es: seq<Event>, m: nat, n: nat, id: nat, subject: Subject, a: Account)
    requires m < n < |es| && es[m] == PrepareIssue(id, subject, a) && es[n] == Land(id) && Happens(es, n + 1)
    requires forall k :: m < k < n ==> es[k] != Land(id)
    ensures Happens(es, m) && Happens(es, n)
    ensures var h, since := After(es, n).value.history, |After(es, m).value.history|;
      GivenAt(es, n, subject, a) <==> !exists k, b :: since <= k && LastIssued(h, k, subject, b)
  {
    Runs.Happened(Next, START, es, n, n + 1);
    Prepared(es, m, n, id);
    HistoryGrows(es, m, n);
    var r, s := After(es, m).value, After(es, n).value;
    hide LastIssued;
    if subject in s.accounts {
      var b := s.accounts[subject];
      StandsExactly(es, n, subject, b);
      StandsExactly(es, m, subject, b);
      var k: nat :| LastIssued(s.history, k, subject, b);
      if k < |r.history| {
        StillLast(s.history, r.history, k, subject, b);
      }
    }
    if k: nat, b :| |r.history| <= k && LastIssued(s.history, k, subject, b) {
      StandsExactly(es, n, subject, b);
    }
  }

  lemma {:induction false} StillLast(h: seq<Transaction>, g: seq<Transaction>, k: nat, subject: Subject, a: Account)
    requires g <= h && k < |g| && LastIssued(h, k, subject, a)
    ensures LastIssued(g, k, subject, a)
  {
    hide Touches, Creates;
  }

  /** A subject's attestation `a` was issued between `m` and `n`, after an earlier one was closed in
      between too, and has stood until `n`. */
  ghost predicate Replaced(es: seq<Event>, m: nat, n: nat, subject: Subject, a: Account) {
    exists k, j :: m < k < j < n && TakenAt(es, k, subject) && GivenAt(es, j, subject, a)
      && forall i :: j < i < n ==> !TakenAt(es, i, subject)
  }

  /** Every attestation under this issuer carries a token, and pending steps keep it so. */
  ghost predicate Tokenized(s: Ledger) {
    && (forall x :: x in s.accounts ==> s.accounts[x].tokenized)
    && (forall id :: id in s.pending ==>
      match s.pending[id].intent
      case Issuing(a) => a.tokenized
      case Closing(read, _) => read.tokenized)
  }

  lemma {:induction false} RunTokenized(es: seq<Event>, n: nat)
    requires Happens(es, n)
    ensures Tokenized(After(es, n).value)
  {
    if n > 0 {
      RunTokenized(es, n - 1);
    }
  }

  /** What a close checked: it was prepared against an attestation that carried the reference given, if
      one was, and had lapsed, unless forced; it takes whatever the subject holds when it lands. */
  lemma {:induction false} PreparedClose(es: seq<Event>, m: nat, n: nat, id: nat, subject: Subject,
      referenceId: Option<Text>, unforced: bool)
    requires m < n < |es| && es[m] == PrepareClose(id, subject, referenceId, unforced) && es[n] == Land(id)
    requires Happens(es, n + 1) && forall k :: m < k < n ==> es[k] != Land(id)
    ensures Happens(es, m) && Happens(es, n)
    ensures var r, s := After(es, m).value, After(es, n).value;
      && subject in r.accounts && (unforced ==> Lapsed(r.accounts[subject], s.now))
      && (referenceId.Some? ==> r.accounts[subject].referenceId == referenceId.value)
      && (TakenAt(es, n, subject) <==> subject in s.accounts)
  {
    Runs.Happened(Next, START, es, n, n + 1);
    Prepared(es, m, n, id);
    HistoryGrows(es, m, n);
    RunTokenized(es, n);
  }

  /** An issue is prepared exactly when the schema is there and as expected and the subject holds nothing. */
  lemma {:induction false} IssuePreparedExactly(s: Ledger, id: nat, subject: Subject, a: Account)
    requires id !in s.pending && a.tokenized && a.expiry >= 0
    ensures Next(s, PrepareIssue(id, subject, a)).Some? <==>
      s.schema.Some? && s.schema.value.expected && subject !in s.accounts
  {
  }

  /** A close is prepared exactly when the schema is as expected and the subject holds an attestation that
      carries the reference given, if one is, and, unless forced, has an expiry that has come. */
  lemma {:induction false} ClosePreparedExactly(s: Ledger, id: nat, subject: Subject, referenceId: Option<Text>,
      unforced: bool)
    requires id !in s.pending
    ensures Next(s, PrepareClose(id, subject, referenceId, unforced)).Some? <==>
      && s.schema.Some? && s.schema.value.expected && subject in s.accounts
      && (referenceId.Some? ==> s.accounts[subject].referenceId == referenceId.value)
      && (unforced ==> s.accounts[subject].expiry != 0 && s.accounts[subject].expiry <= s.now)
  {
  }

  /** Why an issue is refused: first the schema, then what the subject holds. */
  lemma {:induction false} IssueRefusedExactly(s: Ledger, subject: Subject)
    ensures var g := IssueGuard(s, subject);
      && (g == NotInitialized <==> s.schema.None?)
      && (g == SchemaDrift <==> s.schema.Some? && !s.schema.value.expected)
      && (g == AlreadyExists <==> s.schema.Some? && s.schema.value.expected && subject in s.accounts)
      && g in {NotInitialized, SchemaDrift, AlreadyExists, Allowed}
  {
  }

  /** Why a close is refused: nothing to close, then the schema, then the reference it carries, then a
      lapse that has not come. */
  lemma {:induction false} CloseRefusedExactly(s: Ledger, subject: Subject, referenceId: Option<Text>, unforced: bool)
    ensures var g := CloseGuard(s, subject, referenceId, unforced);
      && (g == NothingThere <==> subject !in s.accounts)
      && (g == NotInitialized <==> subject in s.accounts && s.schema.None?)
      && (g == SchemaDrift <==> subject in s.accounts && s.schema.Some? && !s.schema.value.expected)
      && (g == WrongReference ==> referenceId.Some? && s.accounts[subject].referenceId != referenceId.value)
      && (g == NotExpired ==> unforced && !Lapsed(s.accounts[subject], s.now))
      && (g == NotExpired && referenceId.Some? ==> s.accounts[subject].referenceId == referenceId.value)
      && g != AlreadyExists
  {
  }

  /** In every run, with a close prepared for a reference at `m` and landing at `n`: it takes an
      attestation of another reference exactly when the subject's was closed and one of another
      reference issued in between. */
  lemma {:induction false} WrongReferenceExactly(es: seq<Event>, m: nat, n: nat, id: nat, subject: Subject,
      referenceId: Text, unforced: bool)
    requires m < n < |es| && es[m] == PrepareClose(id, subject, Some(referenceId), unforced) && es[n] == Land(id)
    requires Happens(es, n + 1) && forall k :: m < k < n ==> es[k] != Land(id)
    ensures Happens(es, n)
    ensures var s := After(es, n).value;
      TakenAt(es, n, subject) && s.accounts[subject].referenceId != referenceId <==>
        exists a :: Replaced(es, m, n, subject, a) && a.referenceId != referenceId
  {
    PreparedClose(es, m, n, id, subject, Some(referenceId), unforced);
    hide TakenAt, Replaced;
    var s := After(es, n).value;
    if TakenAt(es, n, subject) && s.accounts[subject].referenceId != referenceId {
      LiveWasReplaced(es, m, n, subject);
    }
    if a :| Replaced(es, m, n, subject, a) && a.referenceId != referenceId {
      ReplacedStands(es, m, n, subject, a);
    }
  }

  /** In every run, with an unforced close prepared at `m` and landing at `n`: it takes a live
      attestation exactly when the subject's attestation was closed and a new one issued in between
      that is live when the close lands. */
  lemma {:induction false} LateCloseExactly(es: seq<Event>, m: nat, n: nat, id: nat, subject: Subject,
      referenceId: Option<Text>)
    requires m < n < |es| && es[m] == PrepareClose(id, subject, referenceId, true) && es[n] == Land(id)
    requires Happens(es, n + 1) && forall k :: m < k < n ==> es[k] != Land(id)
    ensures Happens(es, n)
    ensures var s := After(es, n).value;
      TakenAt(es, n, subject) && !Lapsed(s.accounts[subject], s.now) <==>
        exists a :: Replaced(es, m, n, subject, a) && !Lapsed(a, s.now)
  {
    PreparedClose(es, m, n, id, subject, referenceId, true);
    hide TakenAt, Replaced;
    var s := After(es, n).value;
    if TakenAt(es, n, subject) && !Lapsed(s.accounts[subject], s.now) {
      LiveWasReplaced(es, m, n, subject);
    }
    if a :| Replaced(es, m, n, subject, a) && !Lapsed(a, s.now) {
      ReplacedStands(es, m, n, subject, a);
    }
  }

  lemma {:induction false} ReplacedStands(es: seq<Event>, m: nat, n: nat, subject: Subject, a: Account)
    requires Happens(es, n) && Replaced(es, m, n, subject, a)
    ensures Lookup(After(es, n).value, subject) == Some(a)
  {
    hide TakenAt;
    var k, j :| m < k < j < n && TakenAt(es, k, subject) && GivenAt(es, j, subject, a)
      && forall i :: j < i < n ==> !TakenAt(es, i, subject);
    StandsUntilTaken(es, j + 1, n, subject);
  }

  /** An attestation other than the one read at `m` was issued since, after that one was closed. */
  lemma {:induction false} LiveWasReplaced(es: seq<Event>, m: nat, n: nat, subject: Subject)
    requires m < n && Happens(es, n) && !es[m].Land? && subject in After(es, n).value.accounts
    requires Happens(es, m) && subject in After(es, m).value.accounts
    requires After(es, m).value.accounts[subject] != After(es, n).value.accounts[subject]
    ensures Replaced(es, m, n, subject, After(es, n).value.accounts[subject])
  {
    hide TakenAt, GivenAt;
    Given(es, m, n, subject);
    var a := After(es, n).value.accounts[subject];
    var j :| m <= j < n && GivenAt(es, j, subject, a) && forall k :: j < k < n ==> !TakenAt(es, k, subject);
    GivenLands(es, j, subject, a);
    Taken(es, m, j, subject);
    var k :| m <= k < j && TakenAt(es, k, subject);
    TakenLands(es, k, subject);
  }

  lemma {:induction false} GivenLands(es: seq<Event>, j: nat, subject: Subject, a: Account)
    requires GivenAt(es, j, subject, a)
    ensures es[j].Land? && Happens(es, j) && subject !in After(es, j).value.accounts
  {
  }

  lemma {:induction false} TakenLands(es: seq<Event>, k: nat, subject: Subject)
    requires TakenAt(es, k, subject)
    ensures es[k].Land?
  {
  }

  /** So an unforced close takes an attestation that `verify` calls expired, unless another close of
      the subject landed while it was on its way. */
  lemma {:induction false} UnforcedCloseTakesLapsed(es: seq<Event>, m: nat, n: nat, id: nat, subject: Subject,
      referenceId: Option<Text>)
    requires m < n < |es| && es[m] == PrepareClose(id, subject, referenceId, true) && es[n] == Land(id)
    requires Happens(es, n + 1) && forall k :: m < k < n ==> es[k] != Land(id) && !TakenAt(es, k, subject)
    ensures TakenAt(es, n, subject) && Lapsed(After(es, n).value.accounts[subject], After(es, n).value.now)
  {
    PreparedClose(es, m, n, id, subject, referenceId, true);
    forall k | m <= k < n
      ensures !TakenAt(es, k, subject)
    {
    }
    StandsUntilTaken(es, m, n, subject);
  }

  /** Issue `a` for a subject without an attestation. */
  lemma {:induction false} IssueNow(es: seq<Event>, s: Ledger, id: nat, subject: Subject, a: Account)
      returns (fs: seq<Event>, t: Ledger)
    requires After(es, |es|) == Some(s) && s.schema == Some(Schema(false, true))
    requires id !in s.pending && subject !in s.accounts && a.tokenized && a.expiry >= 0
    ensures After(fs, |fs|) == Some(t)
    ensures t.accounts == s.accounts[subject := a] && t.pending == s.pending && t.now == s.now && t.schema == s.schema
  {
    var u := Next(s, PrepareIssue(id, subject, a)).value;
    fs := Runs.Extend(Next, START, es, s, PrepareIssue(id, subject, a), u);
    t := Next(u, Land(id)).value;
    fs := Runs.Extend(Next, START, fs, u, Land(id), t);
    assert t.pending == s.pending;
  }

  /** It happens: replacing a lapsed attestation while a close of it is on its way makes that close,
      though unforced, take down the new one, which `verify` calls valid. */
  lemma {:induction false} LateCloseTakesLive(subject: Subject, r: Text, c: Text)
      returns (es: seq<Event>, s: Ledger, t: Ledger)
    ensures Happens(es, |es|) && After(es, |es|) == Some(s) && 0 in s.pending
    ensures s.pending[0] == Pending(subject, Closing(Account(r, c, 10, true), true))
    ensures subject in s.accounts && Verify(s, subject, r, Some(c), true, ALL_READABLE) == Valid
    ensures Next(s, Land(0)) == Some(t) && subject !in t.accounts
  {
    var lapsed, live := Account(r, c, 10, true), Account(r, c, 100, true);
    var s1 := Next(START, SetSchema(Schema(false, true))).value;
    es := Runs.Extend(Next, START, [], START, SetSchema(Schema(false, true)), s1);
    var s2, s3, s4, s5, s6;
    es, s2 := IssueNow(es, s1, 0, subject, lapsed);
    s3 := Next(s2, Tick(20)).value;
    es := Runs.Extend(Next, START, es, s2, Tick(20), s3);
    s4 := Next(s3, PrepareClose(0, subject, None, true)).value;
    es := Runs.Extend(Next, START, es, s3, PrepareClose(0, subject, None, true), s4);
    s5 := Next(s4, PrepareClose(1, subject, None, false)).value;
    es := Runs.Extend(Next, START, es, s4, PrepareClose(1, subject, None, false), s5);
    s6 := Next(s5, Land(1)).value;
    es := Runs.Extend(Next, START, es, s5, Land(1), s6);
    es, s := IssueNow(es, s6, 1, subject, live);
    t := Next(s, Land(0)).value;
  }

  // What the answers of `verify` mean

  /** The attestation carries what the holder showed, and has not lapsed. */
  predicate Shown(a: Account, referenceId: Text, commitment: Option<Text>, now: int) {
    a.referenceId == referenceId && (commitment.Some? ==> commitment.value == a.commitment) && !Lapsed(a, now)
  }

  /** In every run, valid means exactly: the schema is live, as expected and not paused, and the last
      successful transaction on the subject's attestation issued one that carries what was shown and
      has not lapsed. */
  lemma {:induction false} ValidExactly(es: seq<Event>, n: nat, subject: Subject, referenceId: Text,
      commitment: Option<Text>, checkHistory: bool, rpc: Rpc)
    requires Happens(es, n)
    ensures var s := After(es, n).value;
      Verify(s, subject, referenceId, commitment, checkHistory, rpc) == Valid <==>
        && s.schema == Some(Schema(false, true))
        && exists k, a :: LastIssued(s.history, k, subject, a) && Shown(a, referenceId, commitment, s.now)
  {
    hide LastIssued, RevocationOf;
    var s := After(es, n).value;
    if subject in s.accounts {
      StandsExactly(es, n, subject, s.accounts[subject]);
    }
    if k: nat, a :| LastIssued(s.history, k, subject, a) && Shown(a, referenceId, commitment, s.now) {
      StandsExactly(es, n, subject, a);
    }
  }

  /** When reads succeed, revoked means exactly: the schema exists, the account does not, history is
      checked, and one of the five newest successful transactions among the last twenty that name the
      address carries a close of an attestation, whichever attestation that is. */
  lemma {:induction false} RevokedExactly(s: Ledger, subject: Subject, referenceId: Text, commitment: Option<Text>,
      checkHistory: bool)
    ensures Verify(s, subject, referenceId, commitment, checkHistory, ALL_READABLE).Revoked? <==>
      && s.schema.Some? && subject !in s.accounts && checkHistory
      && exists i :: 0 <= i < |Inspected(s.history, subject)| && CarriesClose(Inspected(s.history, subject)[i])
  {
    var ts := Inspected(s.history, subject);
    hide Inspected;
    forall i | 0 <= i < |ts|
      ensures Evident(ALL_READABLE, ts[i]).Some? <==> CarriesClose(ts[i])
    {
    }
  }

  /** In every run, of an attestation that stands: each answer exactly when the tests before it pass and
      its own does not. */
  lemma {:induction false} AnswersExactly(es: seq<Event>, n: nat, k: nat, a: Account, subject: Subject,
      referenceId: Text, commitment: Option<Text>, checkHistory: bool, rpc: Rpc)
    requires Happens(es, n) && LastIssued(After(es, n).value.history, k, subject, a)
    requires After(es, n).value.schema.Some?
    ensures var s := After(es, n).value;
      var sc, same, r := s.schema.value, commitment.Some? ==> commitment.value == a.commitment,
        Verify(s, subject, referenceId, commitment, checkHistory, rpc);
      && (r == Drift <==> !sc.expected)
      && (r == ReferenceMismatch <==> sc.expected && a.referenceId != referenceId)
      && (r == CommitmentMismatch <==> sc.expected && a.referenceId == referenceId && !same)
      && (r == SchemaPaused <==> sc.expected && a.referenceId == referenceId && same && sc.paused)
      && (r == Expired <==>
            sc.expected && a.referenceId == referenceId && same && !sc.paused && a.expiry != 0 && a.expiry <= s.now)
      && r != NotFound && !r.Revoked?
  {
    StandsExactly(es, n, subject, a);
    hide LastIssued, RevocationOf;
  }

  /** Not found means exactly: no schema, or no attestation and no close found, or not looked for, or the
      list of signatures not to be had. */
  lemma {:induction false} NotFoundExactly(s: Ledger, subject: Subject, referenceId: Text, commitment: Option<Text>,
      checkHistory: bool, rpc: Rpc)
    ensures Verify(s, subject, referenceId, commitment, checkHistory, rpc) == NotFound <==>
      || s.schema.None?
      || (subject !in s.accounts && (!checkHistory || !rpc.listed || NothingEvident(rpc, s.history, subject)))
  {
    var ts := Inspected(s.history, subject);
    NoEvidence(rpc, ts, |ts|);
    hide Inspected, FirstEvidence, Evident;
  }

  /** No close is found in what is inspected. */
  ghost predicate NothingEvident(rpc: Rpc, h: seq<Transaction>, subject: Subject) {
    forall t :: t in Inspected(h, subject) ==> Evident(rpc, t).None?
  }

  lemma {:induction false} NoEvidence(rpc: Rpc, ts: seq<Transaction>, n: nat)
    requires n <= |ts|
    ensures FirstEvidence(rpc, ts, n).None? <==> forall i :: 0 <= i < n ==> Evident(rpc, ts[i]).None?
  {
    hide Evident;
    if n > 0 {
      NoEvidence(rpc, ts, n - 1);
    }
  }

  lemma {:induction false} EvidenceFrom(rpc: Rpc, ts: seq<Transaction>, n: nat) returns (i: nat)
    requires n <= |ts| && FirstEvidence(rpc, ts, n).Some?
    ensures i < n && Evident(rpc, ts[i]) == FirstEvidence(rpc, ts, n)
  {
    i := n - 1;
    if FirstEvidence(rpc, ts, n - 1).Some? {
      i := EvidenceFrom(rpc, ts, n - 1);
    }
  }

  lemma {:induction false} SignaturesInOrder(es: seq<Event>, n: nat, k: nat)
    requires Happens(es, n) && k < |After(es, n).value.history|
    ensures After(es, n).value.history[k].signature == k
  {
    var m := Origin(es, n, k);
    StepAccounted(After(es, m).value, es[m], 0);
  }

  /** The transaction a revoked answer points to. */
  lemma {:induction false} EvidenceRecorded(es: seq<Event>, n: nat, subject: Subject, rpc: Rpc)
    requires Happens(es, n) && RevocationOf(rpc, After(es, n).value.history, subject).Some?
    ensures var h, ev := After(es, n).value.history, RevocationOf(rpc, After(es, n).value.history, subject).value;
      && ev.signature < |h| && h[ev.signature].ok && subject in h[ev.signature].names
      && KindOf(CloseIn(h[ev.signature])) == Some(ev.kind)
  {
    var h := After(es, n).value.history;
    var ts := Inspected(h, subject);
    var i := EvidenceFrom(rpc, ts, |ts|);
    var all := Newest(h, |h|, subject, SIGNATURES);
    assert ts[i] in Successful(all);
    var k :| 0 <= k < |h| && h[k] == ts[i];
    SignaturesInOrder(es, n, k);
  }

  /** A close of the subject that took its account at the step that added entry `k`. */
  ghost predicate ClosedAt(es: seq<Event>, n: nat, k: nat, subject: Subject) {
    exists m :: 0 <= m < n && TakenAt(es, m, subject) && |After(es, m).value.history| == k
  }

  /** In every run, an entry is a landed close of the subject exactly when it succeeded and the first
      close in it is about the subject's own attestation. */
  lemma {:induction false} ClosedExactly(es: seq<Event>, n: nat, k: nat, subject: Subject)
    requires Happens(es, n) && k < |After(es, n).value.history|
    ensures var x := After(es, n).value.history[k];
      ClosedAt(es, n, k, subject) <==> x.ok && CloseIn(x).Some? && CloseIn(x).value.target == Some(subject)
  {
    var m := Origin(es, n, k);
    var x := After(es, n).value.history[k];
    hide TakenAt, CloseIn, ClosedAt;
    if x.ok && CloseIn(x).Some? && CloseIn(x).value.target == Some(subject) {
      OwnCloseTakes(es, m, subject);
      assert TakenAt(es, m, subject);
      Recorded(es, n, k, m, subject);
    }
    if ClosedAt(es, n, k, subject) {
      var i := TakenWhen(es, n, k, subject);
      TakenIsClose(es, i, subject);
      HistoryGrows(es, i + 1, n);
      assert After(es, i + 1).value.history[k] == x;
    }
  }

  lemma {:induction false} Recorded(es: seq<Event>, n: nat, k: nat, m: nat, subject: Subject)
    requires m < n && TakenAt(es, m, subject) && |After(es, m).value.history| == k
    ensures ClosedAt(es, n, k, subject)
  {
  }

  lemma {:induction false} TakenWhen(es: seq<Event>, n: nat, k: nat, subject: Subject) returns (m: nat)
    requires ClosedAt(es, n, k, subject)
    ensures m < n && TakenAt(es, m, subject)
    ensures m < |es| && Happens(es, m) && Happens(es, m + 1) && |After(es, m).value.history| == k
  {
    m :| 0 <= m < n && TakenAt(es, m, subject) && |After(es, m).value.history| == k;
  }

  /** A step that adds a successful close of the subject's own takes its account. */
  lemma {:induction false} OwnCloseTakes(es: seq<Event>, m: nat, subject: Subject)
    requires m < |es| && Happens(es, m) && Happens(es, m + 1)
    requires var h, k := After(es, m + 1).value.history, |After(es, m).value.history|;
      |h| == k + 1 && h[k].ok && CloseIn(h[k]).Some? && CloseIn(h[k]).value.target == Some(subject)
    ensures TakenAt(es, m, subject)
  {
    var x := After(es, m + 1).value.history[|After(es, m).value.history|];
    assert CloseIn(x).value in x.instructions;
  }

  lemma {:induction false} TakenIsClose(es: seq<Event>, m: nat, subject: Subject)
    requires TakenAt(es, m, subject)
    ensures var h, k := After(es, m + 1).value.history, |After(es, m).value.history|;
      && |h| == k + 1 && h[k].ok && CloseIn(h[k]).Some? && CloseIn(h[k]).value.target == Some(subject)
      && (CloseIn(h[k]).value.kind.CloseTokenizedAttestation? <==> After(es, m).value.accounts[subject].tokenized)
  {
    var x := After(es, m + 1).value.history[|After(es, m).value.history|];
    assert IsClose(x.instructions[0].kind);
  }

  /** In every run and whatever the node can read: a revoked answer names a transaction, and it is a
      close by which the issuer took this subject's attestation exactly when the first close in that
      transaction is about the subject's own address. */
  lemma {:induction false} RevokedByIssuerExactly(es: seq<Event>, n: nat, subject: Subject, referenceId: Text,
      commitment: Option<Text>, checkHistory: bool, rpc: Rpc)
    requires Happens(es, n)
    requires Verify(After(es, n).value, subject, referenceId, commitment, checkHistory, rpc).Revoked?
    ensures var h := After(es, n).value.history;
      var ev := Verify(After(es, n).value, subject, referenceId, commitment, checkHistory, rpc).evidence;
      && ev.signature < |h| && CloseIn(h[ev.signature]).Some? && CloseIn(h[ev.signature]).value.kind == ev.kind
      && (ClosedAt(es, n, ev.signature, subject) <==> CloseIn(h[ev.signature]).value.target == Some(subject))
  {
    EvidenceRecorded(es, n, subject, rpc);
    var ev := RevocationOf(rpc, After(es, n).value.history, subject).value;
    hide RevocationOf, ClosedAt, CloseIn;
    ClosedExactly(es, n, ev.signature, subject);
  }

  /** In every run in which no one else succeeds with a transaction that names the subject and carries
      a close: a revoked answer means that the issuer closed the subject's attestation. */
  lemma {:induction false} RevokedMeansClosed(es: seq<Event>, n: nat, subject: Subject, referenceId: Text,
      commitment: Option<Text>, checkHistory: bool, rpc: Rpc)
    requires Happens(es, n)
    requires forall m :: 0 <= m < n && es[m].ByOthers? && es[m].ok && subject in es[m].names ==>
      FirstClose(es[m].instructions, |es[m].instructions|) == None
    requires Verify(After(es, n).value, subject, referenceId, commitment, checkHistory, rpc).Revoked?
    ensures exists m :: 0 <= m < n && TakenAt(es, m, subject)
  {
    EvidenceRecorded(es, n, subject, rpc);
    var k := RevocationOf(rpc, After(es, n).value.history, subject).value.signature;
    hide RevocationOf, TakenAt;
    var m := Origin(es, n, k);
    CloseAdded(es, m, subject);
  }

  /** A successful transaction that names the subject and carries a close was either sent by others or
      took the subject's attestation. */
  lemma {:induction false} CloseAdded(es: seq<Event>, m: nat, subject: Subject)
    requires m < |es| && Happens(es, m) && Happens(es, m + 1)
    requires var h, k := After(es, m + 1).value.history, |After(es, m).value.history|;
      |h| == k + 1 && h[k].ok && subject in h[k].names && CloseIn(h[k]).Some?
    ensures
      || TakenAt(es, m, subject)
      || (&& es[m].ByOthers? && es[m].ok && subject in es[m].names
          && FirstClose(es[m].instructions, |es[m].instructions|).Some?)
  {
    var x := After(es, m + 1).value.history[|After(es, m).value.history|];
    if es[m].Land? {
      assert CloseIn(x).value == x.instructions[0];
    }
  }

  /** An address that never held an attestation is called revoked once anyone names it in a
      transaction that closes an attestation of theirs. */
  lemma {:induction false} ForeignCloseReadsAsRevoked(s: Ledger, subject: Subject, referenceId: Text)
    requires s.schema.Some? && subject !in s.accounts
    ensures var e := ByOthers(true, {subject}, [Instruction(CloseAttestation, None)]);
      && Next(s, e).Some?
      && Next(s, e).value.accounts == s.accounts
      && Verify(Next(s, e).value, subject, referenceId, None, true, ALL_READABLE).Revoked?
  {
    var t := Next(s, ByOthers(true, {subject}, [Instruction(CloseAttestation, None)])).value;
    var h := t.history;
    var tx := h[|h| - 1];
    assert CarriesClose(tx) by {
      assert IsClose(tx.instructions[0].kind);
    }
    InspectedNewest(h, |h| - 1, subject);
    RevokedExactly(t, subject, referenceId, None, true);
  }

  // A close stays visible until it is buried

  /** Transactions of `h[k..n]` that name the subject. */
  function Naming(h: seq<Transaction>, k: nat, n: nat, subject: Subject): (c: nat)
    requires k <= n <= |h|
  {
    if k == n then 0 else Naming(h, k, n - 1, subject) + if subject in h[n - 1].names then 1 else 0
  }

  /** Those of them that succeeded. */
  function Succeeded(h: seq<Transaction>, k: nat, n: nat, subject: Subject): (c: nat)
    requires k <= n <= |h|
    ensures c <= Naming(h, k, n, subject)
  {
    if k == n then 0
    else Succeeded(h, k, n - 1, subject) + if subject in h[n - 1].names && h[n - 1].ok then 1 else 0
  }

  function OkAmong(ts: seq<Transaction>, i: nat): (c: nat)
    requires i <= |ts|
  {
    if i == 0 then 0 else (if ts[0].ok then 1 else 0) + OkAmong(ts[1..], i - 1)
  }

  lemma {:induction false} NewestHas(h: seq<Transaction>, k: nat, n: nat, subject: Subject, limit: nat)
    requires k < n <= |h| && subject in h[k].names && Naming(h, k + 1, n, subject) < limit
    ensures var r, i := Newest(h, n, subject, limit), Naming(h, k + 1, n, subject);
      i < |r| && r[i] == h[k] && OkAmong(r, i) == Succeeded(h, k + 1, n, subject)
  {
    if k + 1 < n {
      if subject in h[n - 1].names {
        NewestHas(h, k, n - 1, subject, limit - 1);
        var rest := Newest(h, n - 1, subject, limit - 1);
        assert ([h[n - 1]] + rest)[1..] == rest;
      } else {
        NewestHas(h, k, n - 1, subject, limit);
      }
    }
  }

  lemma {:induction false} SuccessfulHas(ts: seq<Transaction>, i: nat)
    requires i < |ts| && ts[i].ok
    ensures OkAmong(ts, i) < |Successful(ts)| && Successful(ts)[OkAmong(ts, i)] == ts[i]
  {
    if i > 0 {
      SuccessfulHas(ts[1..], i - 1);
    }
  }

  /** A successful transaction naming the address is inspected unless five successful ones, or twenty
      in all, have named it since. */
  lemma {:induction false} InspectedNewest(h: seq<Transaction>, k: nat, subject: Subject)
    requires k < |h| && h[k].ok && subject in h[k].names
    requires Naming(h, k + 1, |h|, subject) < SIGNATURES && Succeeded(h, k + 1, |h|, subject) < MAX_HISTORY_TRANSACTIONS
    ensures exists i :: 0 <= i < |Inspected(h, subject)| && Inspected(h, subject)[i] == h[k]
  {
    NewestHas(h, k, |h|, subject, SIGNATURES);
    var ts, i := Newest(h, |h|, subject, SIGNATURES), Naming(h, k + 1, |h|, subject);
    SuccessfulHas(ts, i);
    assert Inspected(h, subject)[OkAmong(ts, i)] == h[k];
  }

  ghost predicate NewestFirst(ts: seq<Transaction>) {
    forall i, j :: 0 <= i < j < |ts| ==> ts[i].signature > ts[j].signature
  }

  ghost predicate Signed(h: seq<Transaction>) { forall i :: 0 <= i < |h| ==> h[i].signature == i }

  lemma {:induction false} NewestDecreasing(h: seq<Transaction>, n: nat, subject: Subject, limit: nat)
    requires n <= |h| && Signed(h)
    ensures NewestFirst(Newest(h, n, subject, limit))
    ensures forall i :: 0 <= i < |Newest(h, n, subject, limit)| ==> Newest(h, n, subject, limit)[i].signature < n
  {
    if n > 0 && limit > 0 {
      if subject in h[n - 1].names {
        NewestDecreasing(h, n - 1, subject, limit - 1);
      } else {
        NewestDecreasing(h, n - 1, subject, limit);
      }
    }
  }

  lemma {:induction false} FirstIsNewest(ts: seq<Transaction>, t: Transaction)
    requires NewestFirst(ts) && ts != [] && t in ts[1..]
    ensures t.signature < ts[0].signature
  {
    var j :| 0 <= j < |ts[1..]| && ts[1..][j] == t;
    assert ts[j + 1] == t;
  }

  lemma {:induction false} SuccessfulDecreasing(ts: seq<Transaction>)
    requires NewestFirst(ts)
    ensures NewestFirst(Successful(ts))
    ensures forall i :: 0 <= i < |Successful(ts)| ==> Successful(ts)[i].signature <= ts[0].signature
  {
    if ts != [] {
      var rest := Successful(ts[1..]);
      assert Successful(ts) == if ts[0].ok then [ts[0]] + rest else rest;
      hide Successful;
      SuccessfulDecreasing(ts[1..]);
      forall i | 0 <= i < |rest|
        ensures rest[i].signature < ts[0].signature
      {
        FirstIsNewest(ts, rest[i]);
      }
    }
  }

  /** What `limit` later transactions have named the address since is not listed any more. */
  lemma {:induction false} NewestLacks(h: seq<Transaction>, k: nat, n: nat, subject: Subject, limit: nat)
    requires k < n <= |h| && Signed(h) && Naming(h, k + 1, n, subject) >= limit
    ensures forall i :: 0 <= i < |Newest(h, n, subject, limit)| ==> Newest(h, n, subject, limit)[i].signature > k
  {
    if limit > 0 {
      if subject in h[n - 1].names {
        NewestLacks(h, k, n - 1, subject, limit - 1);
      } else {
        NewestLacks(h, k, n - 1, subject, limit);
      }
    }
  }

  /** In every run, a successful transaction at the address is inspected exactly as long as fewer than
      twenty transactions, and fewer than five successful ones, have named the address since. */
  lemma {:induction false} InspectedExactly(es: seq<Event>, n: nat, k: nat, subject: Subject)
    requires Happens(es, n) && k < |After(es, n).value.history|
    requires After(es, n).value.history[k].ok && subject in After(es, n).value.history[k].names
    ensures var h := After(es, n).value.history;
      h[k] in Inspected(h, subject) <==>
        Naming(h, k + 1, |h|, subject) < 20 && Succeeded(h, k + 1, |h|, subject) < 5
  {
    var h := After(es, n).value.history;
    forall i | 0 <= i < |h|
      ensures h[i].signature == i
    {
      SignaturesInOrder(es, n, i);
    }
    InspectedOf(h, k, subject);
  }

  lemma {:induction false} InspectedOf(h: seq<Transaction>, k: nat, subject: Subject)
    requires Signed(h) && k < |h| && h[k].ok && subject in h[k].names
    ensures h[k] in Inspected(h, subject) <==>
      Naming(h, k + 1, |h|, subject) < 20 && Succeeded(h, k + 1, |h|, subject) < 5
  {
    var all := Newest(h, |h|, subject, SIGNATURES);
    if Naming(h, k + 1, |h|, subject) < 20 && Succeeded(h, k + 1, |h|, subject) < 5 {
      InspectedNewest(h, k, subject);
    } else if Naming(h, k + 1, |h|, subject) >= 20 {
      NewestLacks(h, k, |h|, subject, SIGNATURES);
      hide Newest;
      NotInspected(h, k, subject);
    } else {
      NewestHas(h, k, |h|, subject, SIGNATURES);
      var i := Naming(h, k + 1, |h|, subject);
      SuccessfulHas(all, i);
      NewestDecreasing(h, |h|, subject, SIGNATURES);
      SuccessfulDecreasing(all);
      assert forall j :: 0 <= j < OkAmong(all, i) ==> Successful(all)[j].signature > k;
    }
  }

  lemma {:induction false} NotInspected(h: seq<Transaction>, k: nat, subject: Subject)
    requires Signed(h) && k < |h|
    requires forall i :: 0 <= i < |Newest(h, |h|, subject, SIGNATURES)| ==>
      Newest(h, |h|, subject, SIGNATURES)[i].signature > k
    ensures h[k] !in Inspected(h, subject)
  {
    var all := Newest(h, |h|, subject, SIGNATURES);
    hide Newest;
    forall x | x in Successful(all)
      ensures x.signature > k
    {
      var j :| 0 <= j < |Successful(all)| && Successful(all)[j] == x;
      assert x in all;
    }
  }

  /** In every run: once a close of the issuer has landed, `verify` answers revoked for as long as the
      subject has no new attestation and fewer than five successful transactions, and fewer than
      twenty in all, have named the address since. */
  lemma {:induction false} RevokedUntilBuried(es: seq<Event>, m: nat, n: nat, subject: Subject, referenceId: Text,
      commitment: Option<Text>)
    requires m < n && Happens(es, n) && TakenAt(es, m, subject) && After(es, m).value.schema.Some?
    requires subject !in After(es, n).value.accounts
    requires var h, k := After(es, n).value.history, |After(es, m).value.history| + 1;
      && k <= |h|
      && Naming(h, k, |h|, subject) < SIGNATURES && Succeeded(h, k, |h|, subject) < MAX_HISTORY_TRANSACTIONS
    ensures Verify(After(es, n).value, subject, referenceId, commitment, true, ALL_READABLE).Revoked?
  {
    var h, k := After(es, n).value.history, |After(es, m).value.history|;
    HistoryGrows(es, m, n);
    HistoryGrows(es, m + 1, n);
    assert h[k] == After(es, m + 1).value.history[k];
    assert IsClose(h[k].instructions[0].kind);
    InspectedNewest(h, k, subject);
    RevokedExactly(After(es, n).value, subject, referenceId, commitment, true);
  }
}
