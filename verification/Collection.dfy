/** Collecting evidence in two phases (`buildEvidence` in packages/evidence/src/collect.ts): the plan,
    then a security lookup for each of the busiest assets the first phase found. What is claimed and
    committed to depends on the responses alone. */
module Collection {
  import opened Utf
  import opened Json
  import opened Canonical
  import opened Access
  import opened Derive
  import opened Claims
  import opened Reading
  import opened Verify
  import opened Evidence
  import opened WorkerPool
  import ClaimSet
  import Ranking

  const SECURITY_PATH := Ascii("/2/token/security")

  function Lookups(assets: seq<Ranking.Asset>): (r: seq<Request>)
    ensures |r| == |assets|
  {
    seq(|assets|, i requires 0 <= i < |assets| =>
      Request(SECURITY_PATH, [Member(K_ADDRESS, Str(assets[i].address)), Member(K_CHAIN, Str(assets[i].chain))]))
  }

  /** The plan of the second phase, from what the first one collected. */
  function SecurityPlan(env: Env, w: Window, rs: seq<Collected>, limit: int): seq<Request> {
    Lookups(Ranking.FirstOf(Ranking.Ranked(env.before, Ranking.ListedIn(env, w, rs, |rs|)), limit))
  }

  /** The second phase asks for the security of each asset kept, by address and chain, busiest first. */
  lemma {:induction false} PlanNames(env: Env, w: Window, rs: seq<Collected>, limit: int)
    ensures var ranked, plan := Ranking.Ranked(env.before, Ranking.ListedIn(env, w, rs, |rs|)),
        SecurityPlan(env, w, rs, limit);
      && |plan| == (if limit <= 0 then 0 else if limit < |ranked| then limit else |ranked|)
      && forall i :: 0 <= i < |plan| ==>
        && plan[i].path == Ascii("/2/token/security")
        && plan[i].params == [Member(K_ADDRESS, Str(ranked[i].address)), Member(K_CHAIN, Str(ranked[i].chain))]
  {
    hide Ranking.Ranked, Ranking.ListedIn;
  }

  /** How many workers, and in which order the answers reached them. */
  datatype Schedule = Schedule(concurrency: int, arrivals: seq<Arrival>)

  function AnswersIn(plan: seq<Request>, x: Schedule): map<nat, Attempt> {
    Answers(Initial(plan, x.concurrency), x.arrivals, |x.arrivals|)
  }

  /** Under schedule `x` the pool finishes the plan and returns `rs`. */
  ghost predicate Returns(plan: seq<Request>, x: Schedule, rs: seq<Collected>) {
    var end := After(Initial(plan, x.concurrency), x.arrivals, |x.arrivals|);
    && end.Some? && Finished(end.value)
    && |end.value.results| == |plan| && rs == Collect(end.value.results, |plan|)
  }

  // Responses that differ in nothing a claim can see

  /** Both answered with the same parameters and body, or both refused; when, and with what reason,
      does not matter. */
  predicate SameAttempt(a: Attempt, b: Attempt) {
    match (a, b)
    case (Answer(p, _, body), Answer(q, _, other)) => p == q && body == other
    case (Refusal(_, _, _), Refusal(_, _, _)) => true
    case _ => false
  }

  ghost predicate SameAnswers(a: map<nat, Attempt>, b: map<nat, Attempt>) {
    forall i :: i in a && i in b ==> SameAttempt(a[i], b[i])
  }

  predicate SameResponse(r: Collected, s: Collected) {
    && r.path == s.path && r.params == s.params && r.outcome.Fetched? == s.outcome.Fetched?
    && (r.outcome.Fetched? ==> r.outcome.body == s.outcome.body)
  }

  ghost predicate AllSame(rs: seq<Collected>, ss: seq<Collected>) {
    |rs| == |ss| && forall i :: 0 <= i < |rs| ==> SameResponse(rs[i], ss[i])
  }

  lemma {:induction false} SameRecord(r: Request, a: Attempt, b: Attempt)
    requires SameAttempt(a, b)
    ensures SameResponse(Record(r, a), Record(r, b))
  {
  }

  /** Finished runs of one plan, however scheduled, return lists that agree but for times and reasons
      when the answers did. */
  lemma {:induction false} SameReturned(plan: seq<Request>, x: Schedule, y: Schedule, rs: seq<Collected>,
      ss: seq<Collected>)
    requires Returns(plan, x, rs) && Returns(plan, y, ss) && SameAnswers(AnswersIn(plan, x), AnswersIn(plan, y))
    ensures AllSame(rs, ss)
  {
    ReturnsThePlanInOrder(plan, x.concurrency, x.arrivals);
    ReturnsThePlanInOrder(plan, y.concurrency, y.arrivals);
    hide SameResponse, SameAttempt, Record;
    var a, b := AnswersIn(plan, x), AnswersIn(plan, y);
    assert rs == Answering(plan, a) && ss == Answering(plan, b);
    forall i | 0 <= i < |plan|
      ensures SameResponse(rs[i], ss[i])
    {
      SameRecord(plan[i], a[i], b[i]);
    }
  }

  lemma {:induction false} SameListedIn(env: Env, w: Window, rs: seq<Collected>, ss: seq<Collected>, n: nat)
    requires AllSame(rs, ss) && n <= |rs|
    ensures Ranking.ListedIn(env, w, rs, n) == Ranking.ListedIn(env, w, ss, n)
  {
    if n > 0 {
      SameListedIn(env, w, rs, ss, n - 1);
      assert SameResponse(rs[n - 1], ss[n - 1]);
      assert Ranking.EntriesOf(rs[n - 1]) == Ranking.EntriesOf(ss[n - 1]);
    }
  }

  lemma {:induction false} SamePlan(env: Env, w: Window, rs: seq<Collected>, ss: seq<Collected>, limit: int)
    requires AllSame(rs, ss)
    ensures SecurityPlan(env, w, rs, limit) == SecurityPlan(env, w, ss, limit)
  {
    hide Lookups, SameResponse;
    SameListedIn(env, w, rs, ss, |rs|);
  }

  lemma {:induction false} SameConcat(rs: seq<Collected>, rs2: seq<Collected>, ss: seq<Collected>, ss2: seq<Collected>)
    requires AllSame(rs, ss) && AllSame(rs2, ss2)
    ensures AllSame(rs + rs2, ss + ss2)
  {
    hide SameResponse;
  }

  lemma {:induction false} SameBuilt(env: Env, rs: seq<Collected>, ss: seq<Collected>)
    requires AllSame(rs, ss)
    ensures BuiltSources(env, rs) == BuiltSources(env, ss)
  {
    hide ReadBody, EndpointOf;
    forall i | 0 <= i < |rs|
      ensures BuiltSource(env, rs[i], i) == BuiltSource(env, ss[i], i)
    {
      assert SameResponse(rs[i], ss[i]);
    }
    hide BuiltSource;
  }

  lemma {:induction false} SameRecordable(rs: seq<Collected>, ss: seq<Collected>)
    requires AllSame(rs, ss)
    ensures (forall i :: 0 <= i < |rs| ==> Recordable(rs[i])) <==> forall i :: 0 <= i < |ss| ==> Recordable(ss[i])
  {
    forall i | 0 <= i < |rs|
      ensures Recordable(rs[i]) <==> Recordable(ss[i])
    {
      assert SameResponse(rs[i], ss[i]);
    }
    hide Recordable, SameResponse;
  }

  /** Claims and commitment are a function of the responses. */
  lemma {:induction false} SameClaims(b: Build, w: Window, h: Header, rs: seq<Collected>, ss: seq<Collected>)
    requires AllSame(rs, ss)
    ensures var x, y := BuildEvidence(b, w, h, rs), BuildEvidence(b, w, h, ss);
      && x.Some? == y.Some?
      && (x.Some? ==>
        && Items(Field(x.value, K_CLAIMS)) == Items(Field(y.value, K_CLAIMS))
        && ClaimSet.CommitmentFor(b.sha, x.value) == ClaimSet.CommitmentFor(b.sha, y.value))
  {
    hide Recordable, AllSame, BundleValue, ToSources, ClaimSet.CommitmentFor, MetricsOf, ClaimsOf, ClaimValues,
      Field, BuiltSources;
    BuildsExactly(b, rs, |rs|);
    BuildsExactly(b, ss, |ss|);
    SameRecordable(rs, ss);
    SameBuilt(b.env, rs, ss);
    if ToSources(b.sha, rs, |rs|).Some? {
      BuiltClaims(b, w, h, rs);
      BuiltClaims(b, w, h, ss);
      var v, u := ToSources(b.sha, rs, |rs|).value, ToSources(b.sha, ss, |ss|).value;
      SamePublicParts(b, h, v, u, ClaimsFrom(b, w, rs));
    }
  }

  lemma {:induction false} OtherFields(ms: seq<Member>, ns: seq<Member>, but: Text, k: Text)
    requires |ms| == |ns| && k != but
    requires forall i :: 0 <= i < |ms| ==> ms[i].key == ns[i].key && (ms[i].key != but ==> ms[i] == ns[i])
    ensures Field(Obj(ms), k) == Field(Obj(ns), k)
  {
    OtherLookups(ms, ns, but, k);
    hide Lookup;
  }

  lemma {:induction false} OtherLookups(ms: seq<Member>, ns: seq<Member>, but: Text, k: Text)
    requires |ms| == |ns| && k != but
    requires forall i :: 0 <= i < |ms| ==> ms[i].key == ns[i].key && (ms[i].key != but ==> ms[i] == ns[i])
    ensures Lookup(ms, k) == Lookup(ns, k)
  {
    if ms != [] {
      assert ms[0].key == k ==> ms[0] == ns[0];
      OtherLookups(ms[1..], ns[1..], but, k);
    }
  }

  /** Bundles with the same header and claims share their commitment, whatever their sources. */
  lemma {:induction false} SamePublicParts(b: Build, h: Header, v: seq<Value>, u: seq<Value>, claims: seq<Value>)
    ensures var x, y := BundleValue(b, h, v, claims), BundleValue(b, h, u, claims);
      && Field(x, K_CLAIMS) == Field(y, K_CLAIMS)
      && ClaimSet.CommitmentFor(b.sha, x) == ClaimSet.CommitmentFor(b.sha, y)
  {
    hide ClaimSet.CommitmentFor, Field;
    var x, y := BundleValue(b, h, v, claims), BundleValue(b, h, u, claims);
    forall k | k != K_SOURCES
      ensures Field(x, k) == Field(y, k)
    {
      OtherFields(x.members, y.members, K_SOURCES, k);
    }
    SourcesApart();
    hide BundleValue;
    ClaimSet.CommitmentHides(b.sha, x, y);
  }

  lemma {:induction false} SourcesApart()
    ensures K_SOURCES != K_CLAIMS && K_SOURCES != K_SUBJECT
  {
    assert |K_SOURCES| == 7 && |K_CLAIMS| == 6 && K_SOURCES[1] == 111 && K_SUBJECT[1] == 117;
  }

  /** Two collections of one plan, with any numbers of workers and any order and timing of arrivals in
      either phase: if the responses were the same, so are the assets looked up, the claims and the
      commitment. */
  lemma {:induction false} ScheduleIrrelevant(b: Build, w: Window, h: Header, plan: seq<Request>, limit: int,
      x1: Schedule, x2: Schedule, rs: seq<Collected>, rs2: seq<Collected>,
      y1: Schedule, y2: Schedule, ss: seq<Collected>, ss2: seq<Collected>)
    requires Returns(plan, x1, rs) && Returns(SecurityPlan(b.env, w, rs, limit), x2, rs2)
    requires Returns(plan, y1, ss) && Returns(SecurityPlan(b.env, w, ss, limit), y2, ss2)
    requires SameAnswers(AnswersIn(plan, x1), AnswersIn(plan, y1))
    requires SameAnswers(AnswersIn(SecurityPlan(b.env, w, rs, limit), x2),
                         AnswersIn(SecurityPlan(b.env, w, ss, limit), y2))
    ensures SecurityPlan(b.env, w, rs, limit) == SecurityPlan(b.env, w, ss, limit)
    ensures AllSame(rs + rs2, ss + ss2)
    ensures var x, y := BuildEvidence(b, w, h, rs + rs2), BuildEvidence(b, w, h, ss + ss2);
      && x.Some? == y.Some?
      && (x.Some? ==>
        && Items(Field(x.value, K_CLAIMS)) == Items(Field(y.value, K_CLAIMS))
        && ClaimSet.CommitmentFor(b.sha, x.value) == ClaimSet.CommitmentFor(b.sha, y.value))
  {
    hide Returns, SameAnswers, AnswersIn, AllSame, BuildEvidence, ClaimSet.CommitmentFor, SecurityPlan, Field;
    SameReturned(plan, x1, y1, rs, ss);
    SamePlan(b.env, w, rs, ss, limit);
    SameReturned(SecurityPlan(b.env, w, rs, limit), x2, y2, rs2, ss2);
    SameConcat(rs, rs2, ss, ss2);
    SameClaims(b, w, h, rs + rs2, ss + ss2);
  }
}
