# Zegel, verified

Zegel derives claims about a wallet from recorded API responses, hashes them canonically, seals
them, serves a public envelope through a gateway, and lets a stranger re-check everything. This
project models the parts those promises rest on and proves them for all inputs, all runs and all
interleavings. `dafny verify dfyconfig.toml` checks it.

How the files follow the system:

- `Utf`, `Numbers`, `Json`: the runtime beneath the encoder, that is UTF-16 strings and UTF-8
  (RFC 3629), shortest decimals as `Number::toString` prints them, and JSON printing and parsing
  (sections 2 to 7 of RFC 8259). `Sorting` is the stable sort everything ordered goes through, `Lists`
  the filter that laws about counting and adding up speak of.
- `Canonical`, `Access`, `Envelope`: the canonical encoder, property access on JavaScript values, and
  the sealed object.
- `Derive`, `Metrics`, `Claims`, `DeriveOrder`, `Measures`: cycles, metrics and claims, their laws, when
  the order of the evidence matters, and what is counted, added up and listed.
- `Reading`, `Verify`, `VerifyLaws`, `VerifySealed`, `Evidence`, `ClaimSet`, `Ranking`, `Collection`: the
  re-derivation check, what passing means, and the bundles and commitments made from collected
  responses.
- `WorkerPool`, `PatchQueue`, `Store`, `Publish`, `Feed`: the asynchronous parts. Objects of the source
  are classes whose methods are the code between two awaits; each method is proved equal to a step
  of a state machine, or is called by one that is, and the theorems are about every run of that
  machine. `Runs` says what a run is.
- `Attestation`: issue, revoke and close as steps over a ledger, with `verify` as the observer.
- `Mrz`, `Ndjson`, `Dns`, `Clock`, `Wrap`: codecs and small algorithms.

Loops of the source are methods with loops, each proved equal to a specification function; the laws
are lemmas about those functions. Automatic induction is off in every lemma, so each induction is
written out. The hash is a parameter; a result that would need it to be
injective names the collision instead. What the runtime does with dates, numerals, letter case and
chain names is a parameter too (`Reading.Env`), so the results hold for any such behaviour.

What the proofs found, where code and promise part:

- A bundle that repeats a claim id can pass the check while stating a claim its sources do not give
  (`VerifyLaws.HiddenClaimPasses`); distinct ids are exactly what is missing.
- An entry without an entry date and one entered at the epoch tie in the sort but are different
  trades, so the drawdown can depend on the listing (`DeriveOrder.EpochTieChangesDrawdown`).
- Overlapping publishes for one node can roll the stored record back (`Publish.OverlapRollsBack`),
  exactly when one is put whose nonce the ledger has passed (`Publish.RecordsAgreeExactly`); the nonce
  ledger still only grows.
- The DNS decoder drops a byte order mark in front of a label, so different inputs can give one name
  (`Dns.MarksDisappear`).
- An unforced `close` can take down a live attestation that replaced the lapsed one it read
  (`Attestation.LateCloseTakesLive`; `Attestation.LateCloseExactly` says when).
- A foreign close that names an address makes it read as revoked, although the comment at
  solana/src/verify.ts:203-207 promises that revocations are the issuer's
  (`Attestation.ForeignCloseReadsAsRevoked`). Whoever looks up the transaction that was returned can
  tell: it is the issuer's close exactly when the close found in it is about the address asked for
  (`Attestation.RevokedByIssuerExactly`).
- While the feed cannot be read, staleness is bounded by an envelope's own expiry only
  (`Feed.FallbackIsUnbounded`).
- A time beyond the range of dates is counted as a sample but falls in no hour
  (`Clock.BeyondDatesUncounted`).
- The wallet age is rounded to two decimals in packages/evidence/src/derive.ts:364 although the
  descriptor at packages/evidence/src/derive.ts:529 says four, and the comment at
  packages/evidence/src/derive.ts:149 says a negative zero would hash differently although it prints
  as 0. The model follows the code.

## Model

| member | source | states |
|---|---|---|
| Canonical.EncodeSameText | packages/sdk/src/canonical.ts:16-41 | two encodable values share their canonical text exactly when they are equivalent: undefined members dropped, undefined slots read as null, bigints as decimal strings, key order ignored; equivalence is defined without sorting or printing |
| Canonical.EncodePrintsNorm | packages/sdk/src/canonical.ts:16-41 | the encoder throws exactly on values that hold an undefined root, a non-finite number or a non-JSON value where it is not dropped, and otherwise prints the normal form |
| Canonical.ParseEncode | packages/sdk/src/canonical.ts:16-41 | an RFC 8259 parser reads an encoding back as the normal form, and encoding that again gives the same text |
| Canonical.EncodeInjective | packages/sdk/src/canonical.ts:16-41 | equal texts mean equal normal forms, and conversely |
| Canonical.NormEquivalent | packages/sdk/src/canonical.ts:33-38 | normal forms coincide exactly for equivalent values |
| Canonical.KeyOrder | packages/sdk/src/canonical.ts:36 | keys are compared by the first code unit in which they differ, the smaller unit first, and a prefix comes before what it is a prefix of |
| Canonical.EntriesIncreasing | packages/sdk/src/canonical.ts:34-36 | the printed entries of an object come in strictly increasing order of their keys: at the first differing code unit the earlier entry has the smaller one |
| Canonical.DigestBinds | packages/sdk/src/canonical.ts:43-46 | a digest identifies a value up to equivalence, unless two different byte strings collide under the hash; UTF-8 adds no collision of its own |
| Canonical.DigestsEqual | packages/sdk/src/canonical.ts:49-54 | the accumulating comparison answers true exactly for equal texts |
| Json.ParsePrint | packages/seal/src/envelope.ts:70-75 | parsing printed JSON gives back the value printed |
| Json.ParseJson | packages/seal/src/envelope.ts:70-75 | whatever parses is a JSON value: distinct keys, no undefined, no non-finite number |
| Json.PrintClean | packages/sdk/src/canonical.ts:24-27 | printed JSON is well-formed UTF-16 and holds no control character, whatever strings it carries |
| Json.PrintCompact | packages/sdk/src/canonical.ts:24-40 | nothing is printed between the tokens but one comma between elements and one colon in a member |
| Json.EscapedExactly | packages/sdk/src/canonical.ts:24 | which code units stand for themselves in a printed string, which have a two-letter escape, and that the rest are four lower-case hex digits |
| Numbers.ParseNumberText | packages/sdk/src/canonical.ts:24 | a printed number reads back as itself, the sign of zero aside |
| Numbers.ScientificExactly | packages/sdk/src/canonical.ts:24 | numbers from 1e-6 up to 1e21 are printed in plain digits, all others as one digit, a fraction and a signed exponent |
| Canonical.IntTextValue | packages/sdk/src/canonical.ts:28-29 | a bigint prints as its sign and the decimal digits of its magnitude |
| Utf.DecodeEncoded | packages/sdk/src/canonical.ts:45 | UTF-8 decoding inverts encoding on every scalar sequence |
| Utf.EncodedShape | packages/sdk/src/canonical.ts:45 | how many bytes a scalar takes, what the first byte says of it and which six bits each following byte carries |
| Utf.EncodeDecoded | packages/sdk/src/canonical.ts:45 | a byte string that decodes is the only UTF-8 spelling of what it decodes to |
| Utf.ScalarsLossless | packages/sdk/src/canonical.ts:45 | converting a string to scalar values and back changes nothing exactly when it has no lone surrogate |
| Envelope.SealRoundTrip | packages/seal/src/envelope.ts:39-108 | for every encodable payload, either tier and a non-empty reference id, decoding the encoded envelope succeeds, from bytes and from text, with its normal form; the payload inside is the normal form of the payload sealed and has the same digest |
| Envelope.SealStates | packages/seal/src/envelope.ts:39-63 | what a sealed object states: schema, tier as 1 or 2, reference id, date, payload and the digest of that payload |
| Envelope.OpensExactly | packages/seal/src/envelope.ts:76-108 | an object opens exactly when nothing is wrong with it: schema, tier, a non-empty reference id, digest, date and payload are there and the payload is what the digest says; otherwise the error names something that is wrong |
| Envelope.NotJsonExactly | packages/seal/src/envelope.ts:70-75 | text is refused as no JSON exactly when it does not parse |
| Envelope.SealRefuses | packages/seal/src/envelope.ts:39-48 | an envelope can be made exactly when its payload can be canonicalised |
| Envelope.UnsealBinds | packages/seal/src/envelope.ts:102-107 | an object that opens and carries the digest of a payload holds that payload up to equivalence, unless two texts collide |
| Access.FieldNorm | packages/seal/src/envelope.ts:81-105 | reading a property commutes with normalisation |
| Access.FalseExactly | packages/evidence/src/derive.ts:178-180 | of JSON values null, false, zero and the empty text count as false |
| Derive.CollectUsable | packages/evidence/src/derive.ts:123-133 | the filtering loop and stable sort give the sources of an endpoint that carry a body, by index |
| Derive.CollectCycles | packages/evidence/src/derive.ts:174-214 | the nested loops with their set of seen identities give the sorted first listings of each closed cycle inside the window |
| DeriveOrder.DedupeKeepsFirst | packages/evidence/src/derive.ts:187-191 | deduplication keeps exactly the first listing of each identity, and each identity once |
| Measures.UsableMembers | packages/evidence/src/derive.ts:123-133 | the responses used for an endpoint are those of that endpoint that carry a body |
| Measures.ClosedExactly | packages/evidence/src/derive.ts:174-214 | a cycle is closed exactly when it is the first entry, in source and listing order, with its asset, entry and exit whose exit lies inside the window; each is listed once, in order of exit, then entry, then asset |
| Derive.AdvanceCurve | packages/evidence/src/derive.ts:232-235 | one step of the one-pass curve keeps the running total, its highest point and its largest fall |
| Derive.DrawdownIsLargestFall | packages/evidence/src/derive.ts:220-235 | the one-pass drawdown is the largest fall of the running total from any point to any later one, the start included, and some fall is that large |
| Derive.AddVolume | packages/evidence/src/derive.ts:241-244 | one step of the volume map keeps the per-asset sums and the insertion order of keys |
| Derive.WalkCycles | packages/evidence/src/derive.ts:216-245 | the walk computes totals, wins, curve, holding times and per-asset volumes of all cycles |
| Derive.WinsCounted | packages/evidence/src/derive.ts:227 | the wins are the cycles that made money |
| Derive.DaysListed | packages/evidence/src/derive.ts:236-239 | the holding times are the days from entry to exit of the cycles with an entry not after their exit |
| Metrics.RoundNear | packages/evidence/src/derive.ts:147-151 | rounding moves a value by at most half a unit of the last place and is monotone |
| Metrics.RoundOnGrid | packages/evidence/src/derive.ts:147-151 | values on the grid stay, so rounding is idempotent |
| Metrics.MedianSplits | packages/evidence/src/derive.ts:370-375 | at most half of the values lie below the median and at most half above |
| Metrics.MedianExactly | packages/evidence/src/derive.ts:370-375 | the median is the middle of any ascending arrangement, or the mean of its two middles |
| Metrics.VolumeConserved | packages/evidence/src/derive.ts:241-244 | over any list naming each traded asset once the per-asset volumes add up to the gross volume |
| Claims.ConcentrationBounds | packages/evidence/src/derive.ts:308-320 | with non-negative volumes the concentration derived from any sources lies between an even split over the assets traded and the whole, up to its rounding |
| Claims.SampleTrades | packages/evidence/src/derive.ts:251-266 | the fee loops compute the sampled fees, the part taken by bots and the responses used |
| Measures.SampledSums | packages/evidence/src/derive.ts:255-266 | the two sums are those of totalFeesUSD and of mevFeesUSD over all trades dated inside the window |
| Measures.MevShareBounds | packages/evidence/src/derive.ts:353 | when no trade takes more for bots than its fees, the share claimed lies between nothing and all |
| Claims.SampledExactly | packages/evidence/src/derive.ts:255-266 | a trade response backs the fee claims exactly when it holds a trade dated inside the window |
| Claims.IndexSecurity | packages/evidence/src/derive.ts:270-278 | the map holds, per asset, the last security response that names it |
| Measures.SecurityIsLast | packages/evidence/src/derive.ts:270-278 | the response used for an asset names it, and no later one does |
| Claims.ReadSecurity | packages/evidence/src/derive.ts:280-306 | the loop collects the scored responses of traded assets and counts the risky ones |
| Measures.ReadingsExactly | packages/evidence/src/derive.ts:280-303 | a reading is a scored response used for some traded asset, at most one for each |
| Measures.RiskyCounted | packages/evidence/src/derive.ts:304 | the risky readings are those killed or scored below sixty |
| Claims.FindTop | packages/evidence/src/derive.ts:312-317 | the loop finds the largest per-asset volume |
| Claims.FindOldest | packages/evidence/src/derive.ts:322-336 | the loop finds the oldest funding |
| Claims.OldestIsFirstLargest | packages/evidence/src/derive.ts:326-336 | the wallet age is the largest age any funding response gives, taken from the first response that gives it |
| Claims.DeriveMetrics | packages/evidence/src/derive.ts:165-368 | the whole imperative derivation computes the metrics function the laws are about |
| Claims.MeasuredExactly | packages/evidence/src/derive.ts:338-368 | each of the ten metrics is its exact value rounded to the grid its claim is judged on, and is missing exactly when that value is |
| VerifyLaws.StatedClaimJudged | packages/evidence/src/derive.ts:543-567 | a derived claim can be judged from what it states: the threshold and the measured value printed in it stand for exactly the reals it was judged by, and it states passed exactly when they compare as the operator it states says |
| Verify.UnitsStated | packages/evidence/src/derive.ts:401-498 | money is in dollars, times in days, the count a count and what has six decimals a ratio |
| Claims.PassedInUnits | packages/evidence/src/derive.ts:402-567 | a claim passes exactly when its measured value, in units of its last place, is at least the bar or at most the bar its specification names |
| Claims.RoundingKeepsTheBar | packages/evidence/src/derive.ts:543-606 | for any sources: a claim is derived exactly when its exact value exists, states that value rounded, passes whenever the exact value meets the bar, and when it passes misses the bar by at most half a unit of its last place |
| Claims.DerivedInOrder | packages/evidence/src/derive.ts:576-606 | claims come in specification order, each id at most once, and a claim is present exactly when its metric could be computed |
| Measures.BackedExactly | packages/evidence/src/derive.ts:560-604 | a derived claim lists, ascending and without repetition, exactly the responses behind it: all usable histories for seven claims, the trade responses with a trade in the window, the scored security responses used, the response with the oldest funding |
| Claims.DeriveClaims | packages/evidence/src/derive.ts:576-606 | the imperative derivation returns the claims function of the sources |
| DeriveOrder.SourceOrderIrrelevant | packages/evidence/src/derive.ts:123-133 | listing sources with distinct indices in any other order changes no metric and no claim |
| DeriveOrder.ListingIrrelevantExactly | packages/evidence/src/derive.ts:174-214 | the closed cycles are independent of how history bodies list their entries, whether entries may only change places or also repeat, exactly when no source lists two different first-seen cycles of one identity or of one sort position |
| DeriveOrder.EntryOrderIrrelevant | packages/evidence/src/derive.ts:174-214 | relisting the entries of such bodies changes no metric and no claim |
| DeriveOrder.EpochTieChangesDrawdown | packages/evidence/src/derive.ts:209-214 | the condition is needed: an entry without a date beside one dated at the epoch makes the drawdown 20 or 25 dollars depending on the listing |
| Verify.IndexClaims | packages/evidence/src/verify.ts:58-59 | filling the map keeps the last claim of each id and the ids in first-seen order |
| Verify.IdsOnce | packages/evidence/src/verify.ts:58-59 | the ids compared are listed once each, in the order they come up |
| Verify.CheckSources | packages/evidence/src/verify.ts:41-55 | the first loop reports exactly the sources whose body and digest or availability disagree |
| Verify.VerifyClaims | packages/evidence/src/verify.ts:23-81 | the checker reports, in order, what the verdict function of the laws reports |
| VerifyLaws.ReportsExactly | packages/evidence/src/verify.ts:23-81 | a bundle with this build's rule digest has a mismatch reported exactly when it is due: wrong schema, a body though unavailable, a body that is not what its digest says, a derivable claim not stated, a stated claim not derivable, or any of statement, op, unit, passed, actual, threshold and sources differing in its canonical text |
| VerifyLaws.OtherRulesReport | packages/evidence/src/verify.ts:26-39 | a bundle under another rule digest has that reported, its schema if it is wrong, and nothing else |
| Verify.MissingIsNull | packages/evidence/src/verify.ts:69-77 | a field that is missing is compared as null |
| VerifyLaws.ForgedFieldIsReported | packages/evidence/src/verify.ts:66-78 | changing any of those seven fields of the claim a passing bundle holds under an id is reported under that id and field |
| VerifyLaws.PassesExactly | packages/evidence/src/verify.ts:23-81 | a bundle passes exactly when schema and rule digest are this build's, every body matches its digest and no unavailable source carries one, and the stated and the derived claims fill the same map, agreeing on statement, op, unit, passed, actual, threshold and sources |
| VerifyLaws.PassingStatesTheDerivable | packages/evidence/src/verify.ts:57-78 | soundness with its exact condition: a passing bundle states the derivable claims and no others, up to order and on those seven fields, if and only if it repeats no claim id |
| VerifyLaws.HiddenClaimPasses | packages/evidence/src/verify.ts:58 | why ids must be distinct: any claim put in front of a passing bundle's claims goes unnoticed exactly when its id is already stated |
| VerifySealed.SealingKeepsTheVerdict | packages/evidence/src/verify.ts:23-81 | sealing a bundle and opening it again gives the same verdict, mismatch for mismatch, with the same recomputed claims, whatever its window |
| Reading.ReadSourceNorm | packages/evidence/src/derive.ts:123-145 | a source reads the same before and after normalisation |
| Reading.EntryReads | packages/evidence/src/derive.ts:178-207 | a history entry is read, name by name, as the closed cycle it lists: asset, dates, profit, fees and the sum of both volumes |
| Reading.OpenEntry | packages/evidence/src/derive.ts:178-182 | an entry that is open or has no exit date is no closed cycle |
| Reading.TradeReads | packages/evidence/src/derive.ts:255-263 | a trade is read as its date, total fees and bot fees |
| Reading.SecurityReads | packages/evidence/src/derive.ts:270-300 | a security response is read as its asset, which may be named by the request, its score and whether it was killed |
| Reading.SourceReads | packages/evidence/src/derive.ts:123-133 | a source is its index, its endpoint, whether it answered, and its body |
| Reading.EndpointNamed | packages/evidence/src/endpoints.ts:4-8 | which responses are histories and which are trades, by the name of their endpoint |
| Reading.LookupNamed | packages/evidence/src/endpoints.ts:12-14 | which responses are about security and which about funding, by the name of their endpoint |
| Reading.NothingRead | packages/evidence/src/derive.ts:135-145 | what is neither a number nor text that reads as one counts as zero, and as no date |
| Reading.WindowReads | packages/evidence/src/derive.ts:166-167 | the window is read from its two dates, and not at all when one does not parse |
| Reading.BodyReads | packages/evidence/src/derive.ts:174-336 | a body is read as the closed cycles among its entries, all of its trades, its security data and its funding date |
| Evidence.BuiltBundlePasses | packages/evidence/src/collect.ts:159-179 | whatever was collected, the bundle built from it passes the check, states exactly the derivable claims and repeats no id |
| Evidence.OpenedBundlePasses | packages/evidence/src/collect.ts:159-179 | a bundle built from JSON responses can be sealed, and the copy opened from it passes with the claims it states |
| Evidence.BuiltOrderIrrelevant | packages/evidence/src/collect.ts:159-179 | a bundle that lists the sources of a built one in another order re-derives to the same claims; built sources are numbered apart |
| Evidence.SourceIntact | packages/evidence/src/collect.ts:246-266 | a source built from a response or a failure satisfies the checker's source test |
| Evidence.SourceStates | packages/evidence/src/collect.ts:246-266 | a built source states its place in the list, endpoint, parameters, date and digest, and its body or why there is none |
| Evidence.BundleStates | packages/evidence/src/collect.ts:163-177 | a built bundle states schema, reference id, subject, window, date, rule digest and control proof as given |
| Evidence.BuildsExactly | packages/evidence/src/collect.ts:246-266 | building fails exactly over a fetched body that cannot be canonicalised |
| ClaimSet.OpenedCommitmentSame | packages/evidence/src/claimset.ts:12-44 | whoever opens a sealed bundle computes the commitment published for it |
| ClaimSet.ClaimSetShows | packages/evidence/src/claimset.ts:12-34 | a claim set shows reference, chains, window, date, rule digest and each claim in public form: its own id, statement, op, threshold, unit, outcome and sources, and nothing else; no measured value, no address, no source |
| ClaimSet.CommitmentBinds | packages/evidence/src/claimset.ts:42-44 | bundles that share a commitment show equivalent claim sets, unless two texts collide |
| ClaimSet.CommitmentFixesOutcomes | packages/evidence/src/claimset.ts:42-44 | so they state, claim by claim, the same id, statement, op, threshold, unit and outcome |
| ClaimSet.CommitmentHides | packages/evidence/src/claimset.ts:6-34 | bundles that agree on every key but the subject's address, the sources and the measured value of each claim share the commitment |
| Ranking.RankTradedAssets | packages/evidence/src/collect.ts:275-306 | the nested grouping loops, sort and cut give the ranked list of the assets traded in the collected responses |
| Ranking.ListedReads | packages/evidence/src/collect.ts:287-296 | an entry is listed, under its chain and lower-cased address and with both volumes, exactly when its exit lies inside the window |
| Ranking.HistoriesRanked | packages/evidence/src/collect.ts:284-286 | only fetched histories are ranked, by the entries of their data |
| Ranking.GroupExactly | packages/evidence/src/collect.ts:287-300 | an asset goes by the address and chain of the first entry under its key, and its volume is the sum over all entries under the key |
| Ranking.RankedInOrder | packages/evidence/src/collect.ts:303-304 | assets are ranked busiest first, and by address among equals |
| Ranking.RankingConservesVolume | packages/evidence/src/collect.ts:296-299 | the grouped volumes add up to the volumes of the entries |
| Ranking.BusiestAreLookedUp | packages/evidence/src/collect.ts:303-305 | an asset left out is no busier than any asset kept, and is left out only because the limit was reached |
| WorkerPool.Pool.constructor | packages/evidence/src/collect.ts:198-233 | starting the workers gives the initial state: one request in flight per worker |
| WorkerPool.Pool.TakeSlot | packages/evidence/src/collect.ts:203-208 | taking a slot is the take step |
| WorkerPool.Pool.Receive | packages/evidence/src/collect.ts:209-229 | storing an answer, counting it and taking the next slot is the resume step |
| WorkerPool.Pool.Result | packages/evidence/src/collect.ts:234 | the list resolved to holds the filled slots in order |
| WorkerPool.EveryRunKeepsAccounts | packages/evidence/src/collect.ts:192-235 | under every order of answers: slots are requested once each and in order, at most min(concurrency, plan length) requests are in flight, progress counts 1, 2, 3 without gaps, and every stored result is its request with the answer that slot received |
| WorkerPool.FinishesAfterThePlan | packages/evidence/src/collect.ts:202-233 | the pool finishes exactly when as many answers have arrived as the plan is long, and until then some worker can take a step on whatever answer comes |
| WorkerPool.WorkersExactly | packages/evidence/src/collect.ts:114-233 | as many workers start as were asked for, but at least one and no more than there are requests |
| WorkerPool.ReturnsThePlanInOrder | packages/evidence/src/collect.ts:192-235 | the list returned is the plan in its own order, each request with the body, parameters and date it received or the reason and status it failed with, whatever the schedule |
| Collection.PlanNames | packages/evidence/src/collect.ts:151-156 | the second phase asks for the security of each asset kept, by address and chain, busiest first, up to the limit |
| Collection.SameClaims | packages/evidence/src/collect.ts:159-179 | collections whose responses agree but for times and reasons of failure become bundles alike, with the same claims and the same commitment |
| Collection.ScheduleIrrelevant | packages/evidence/src/collect.ts:147-179 | two collections of one plan in both phases, with any numbers of workers and any order and timing of the answers, that received the same responses look up the same assets and give the same claims and the same commitment |
| PatchQueue.PatchQueue.constructor | packages/seal/src/queue.ts:45-49 | a new queue is empty and cold, with the floor given or the default |
| PatchQueue.PatchQueue.WaitMs | packages/seal/src/queue.ts:57-60 | the wait is what remains of the floor since the last finish, never negative |
| PatchQueue.WaitExactly | packages/seal/src/queue.ts:57-60 | the wait is the least that is not negative and takes the clock past the floor |
| PatchQueue.PatchQueue.Enqueue | packages/seal/src/queue.ts:76-98 | enqueueing keeps the invariant and is the enqueue step |
| PatchQueue.PatchQueue.Begin | packages/seal/src/queue.ts:79-81 | the next task sleeps out the floor or starts |
| PatchQueue.PatchQueue.Wake | packages/seal/src/queue.ts:81-84 | a sleep of at least the wait ends and the task starts |
| PatchQueue.PatchQueue.Settle | packages/seal/src/queue.ts:85-88 | a task that resolves or rejects sets the floor and lowers the depth |
| PatchQueue.RateFloor | packages/seal/src/queue.ts:76-98 | in every run tasks run one at a time in enqueue order, each starts at least the floor after the one before finished, and depth is enqueued minus finished |
| PatchQueue.StartsAsSoonAsItMay | packages/seal/src/queue.ts:57-84 | and no later: at once when the queue is cold or the floor has passed, else after a sleep of exactly what remains |
| PatchQueue.PatchQueue.Drain | packages/seal/src/queue.ts:101-103 | a drain takes hold of the tail of its own call time |
| PatchQueue.PatchQueue.Resolve | packages/seal/src/queue.ts:101-103 | and resolves once that promise has settled |
| PatchQueue.DrainCoversEverythingEarlier | packages/seal/src/queue.ts:101-103 | in every run a drain can resolve exactly when every task enqueued before its call has settled |
| PatchQueue.DrainedWhenResolved | packages/seal/src/queue.ts:100-103 | in every run, when a drain has resolved all tasks enqueued before its call had settled |
| PatchQueue.NeverStuck | packages/seal/src/queue.ts:76-98 | while tasks are pending some step can be taken |
| PatchQueue.SecondsDistinct | packages/seal/src/queue.ts:4-15 | with a floor of at least a second no two tasks write in the same wall-clock second |
| PatchQueue.ShortFloorCollides | packages/seal/src/queue.ts:57-60 | and with any shorter floor two tasks can |
| PatchQueue.DefaultFloorSuffices | packages/seal/src/queue.ts:14-15 | the default floor is 1100 milliseconds and keeps write seconds distinct in every run |
| Store.MemoryEnvelopeStore.constructor | gateway/src/store/memory.ts:21-23 | seeding is writing the records in order |
| Store.MemoryEnvelopeStore.Put | gateway/src/store/memory.ts:50-55 | a put is the write of the specification |
| Store.StoreHoldsLastAndLargest | gateway/src/store/memory.ts:50-55 | after any writes the store holds, per node, the last record and the largest nonce |
| Store.FileEnvelopeStore.Load | gateway/src/store/file.ts:109-152 | loading takes over the file, an empty store for a missing one, or breaks for good |
| Store.FileEnvelopeStore.Put | gateway/src/store/file.ts:74-85 | the memory part of a put is the same write as the memory store's, with a flush queued |
| Store.FileEnvelopeStore.BeginFlush | gateway/src/store/file.ts:154-165 | a flush takes a complete copy of both maps, first come first served |
| Store.WriteAgreesExactly | gateway/src/store/file.ts:76-78 | a write keeps records and ledger together exactly when its nonce is not below the ledger |
| Publish.FileIsAPastSnapshot | gateway/src/store/file.ts:154-171 | in every run with failing writes, crashes and restarts the file is missing or a complete copy of what some process had in memory at one earlier instant |
| Publish.FileGrows | gateway/src/store/file.ts:74-85 | the ledger on disk never decreases for any node, and between crashes neither does the one in memory |
| Publish.AcknowledgedStaysOnDisk | gateway/src/store/file.ts:74-85 | once a put has resolved the ledger on disk is at least its nonce for good |
| Publish.NeverAcceptedAgain | gateway/src/admin.ts:57-115 | a publish that arrives after one for its node with the same or a higher nonce was acknowledged never passes the nonce check, in any run with any crashes |
| Publish.AcceptedWasAuthorised | gateway/src/admin.ts:64-103 | in every run a publish past its checks was judged authorised since it arrived, above the ledger nonce it was told, unexpired and at most 3600 seconds ahead |
| Publish.AcknowledgedWasAuthorised | gateway/src/admin.ts:85-114 | in every run whatever was acknowledged had been judged authorised |
| Publish.MemoryAuthorised | gateway/src/admin.ts:85-114 | in every run every record in memory was published by a request judged authorised |
| Publish.DiskAuthorised | gateway/src/admin.ts:85-114 | and so was every record in the file |
| Publish.UnauthorisedIsRefused | gateway/src/admin.ts:86-103 | a publish judged unauthorised is refused and stays so |
| Publish.NextKeeps | gateway/src/admin.ts:64-83 | every step keeps the invariant: ledgers rise from file to flush to memory, waiting publishes are in memory, acknowledged ones on disk, and a cleared publish was timely and newer than everything acknowledged before it arrived |
| Publish.GatewayProcess.Arrive | gateway/src/admin.ts:61-76 | the checks before the first await are the arrival step |
| Publish.GatewayProcess.ReadLedger | gateway/src/admin.ts:78 | the awaited ledger read is the ledger step |
| Publish.GatewayProcess.Judge | gateway/src/admin.ts:79-103 | nonce, owner and signature are the judging step |
| Publish.GatewayProcess.Put | gateway/src/store/file.ts:74-85 | the put through the store is the put step |
| Publish.GatewayProcess.Rename | gateway/src/store/file.ts:168-170 | the rename puts the flushed copy on disk |
| Publish.GatewayProcess.FlushFails | gateway/src/store/file.ts:82-84 | a failed flush refuses its publish and the chain goes on |
| Publish.GatewayProcess.Acknowledge | gateway/src/store/file.ts:82-84 | a settled flush acknowledges its publish |
| Publish.RecordsAgreeExactly | gateway/src/admin.ts:78-113 | in every run every record in memory carries the ledger nonce of its node at every moment exactly when no publish is put whose nonce the ledger has passed since it was checked |
| Publish.NonOverlappingAgrees | gateway/src/admin.ts:78-113 | in particular while publishes for one node do not overlap between ledger read and write, in memory and on disk |
| Publish.OverlapRollsBack | gateway/src/admin.ts:78-113 | two overlapping publishes, nonces 5 and 6, are both acknowledged and leave record 5 under ledger 6 in memory and on disk |
| Feed.SwarmFeedEnvelopeStore.Get | gateway/src/store/swarm-feed.ts:139-144 | the start of a get is the get step: an answer from a fresh cache entry, or a read in flight that keeps the entry it found |
| Feed.SwarmFeedEnvelopeStore.Answer | gateway/src/store/swarm-feed.ts:144-162 | a read that succeeds is the answer step, and returns what that step logs as served |
| Feed.SwarmFeedEnvelopeStore.Fail | gateway/src/store/swarm-feed.ts:148-159 | a read that fails is the failing step, and returns what that step logs as served |
| Feed.CacheAnswersExactly | gateway/src/store/swarm-feed.ts:139-142 | a cached answer is given without reading the feed exactly while it is younger than the cache lifetime and unexpired |
| Feed.SignedInTime | gateway/src/app.ts:197-215 | a lookup is signed exactly for an unexpired envelope; the signature expires at the last second within its own lifetime and the envelope's, and the response may be cached for as long as the cache lifetime and the signature allow |
| Feed.ShowsRecentFeed | gateway/src/store/swarm-feed.ts:139-163 | with any interleaving of reads, an answer not from a failed read shows the feed at an instant at most latency plus cache lifetime back |
| Feed.StalenessBound | gateway/src/app.ts:192-215 | a response signed at any second after the answer that carries a superseded envelope expires before supersession plus latency, cache lifetime, signature lifetime and the wait between answer and signature |
| Feed.FreshnessBound | gateway/src/store/swarm-feed.ts:139-163 | an envelope that stays in the feed is what every answer carries once latency and cache lifetime have passed |
| Feed.FallbackBound | gateway/src/store/swarm-feed.ts:153-158 | when reads fail, what is served was in the feed once, and it is signed exactly before its own expiry, which the signature does not outlive |
| Feed.FallbackIsUnbounded | gateway/src/store/swarm-feed.ts:153-158 | and nothing tighter: a withdrawn envelope is still signed at any later second before its expiry |
| Mrz.CheckDigit | app/src/lib/mrz.ts:69-76 | the loop computes the 7-3-1 weighted digit |
| Mrz.DigitOfThirds | app/src/lib/mrz.ts:62-76 | which is seven times the characters first in each three, three times the second and once the third, modulo ten; digits count as themselves and letters from ten to thirty-five |
| Mrz.WorkedExample | app/src/lib/mrz.ts:69-76 | the standard's worked example |
| Mrz.ReferenceFields | app/src/lib/mrz.ts:110-130 | what is printed of a reference: six characters of its id, its tier and twelve of its commitment |
| Mrz.PadKeeps | app/src/lib/mrz.ts:78-83 | padding keeps digits and capital letters and makes a filler of everything else |
| Mrz.ReadMrzLine2 | app/src/lib/mrz.ts:270-292 | the reader accepts exactly when all five printed digits are right, and returns the four fields |
| Mrz.BuiltLineReadsBack | app/src/lib/mrz.ts:125-143 | a printed line is accepted and reads back the fields it was printed from |
| Mrz.ReferenceLineAccepted | app/src/lib/mrz.ts:110-143 | in particular the line of any reference |
| Mrz.AcceptedLineWasBuilt | app/src/lib/mrz.ts:270-292 | an accepted line is the printed form of its own fields, issuer and filler aside |
| Mrz.SingleErrorExactly | app/src/lib/mrz.ts:270-292 | changing one character of an accepted line goes unnoticed exactly at the issuer and filler positions, or for data of equal value modulo ten |
| Mrz.TranspositionExactly | app/src/lib/mrz.ts:270-292 | exchanging neighbours inside a field goes unnoticed exactly when their values differ by a multiple of five |
| Ndjson.ReadNdjson | app/src/lib/ndjson.ts:61-87 | for every way of cutting the text into chunks the events delivered are those of the whole text |
| Ndjson.SplitResumes | app/src/lib/ndjson.ts:76-82 | splitting can stop anywhere and resume with what was left over |
| Ndjson.CutAtBreaks | app/src/lib/ndjson.ts:76-82 | the lines with their breaks and the rest are the text again, and no break is left inside them |
| Ndjson.TrimExactly | app/src/lib/ndjson.ts:78-86 | trimming takes white space off both ends and nothing else |
| Ndjson.EventsAreTheLines | app/src/lib/ndjson.ts:76-86 | the events are the parses of the trimmed non-blank lines in order, the unterminated last one included, up to the first that does not parse |
| Ndjson.EventSink.Send | app/src/lib/ndjson.ts:26-29 | what has been written is the UTF-8 of the events sent, and events after close are dropped |
| Ndjson.EventSink.Close | app/src/lib/ndjson.ts:30-34 | closing writes nothing |
| Ndjson.ChunksDecodeWhole | app/src/lib/ndjson.ts:68-74 | valid UTF-8 cut anywhere, even inside a character, decodes chunk by chunk to the text of the whole |
| Ndjson.SentIsReadFromAnyChunks | app/src/lib/ndjson.ts:18-87 | end to end: the events a sink wrote, cut into any chunks of bytes, are delivered event for event |
| Dns.DecodeDnsName | gateway/src/dns.ts:17-49 | the loop ends on every input, with the name or the first error in byte order |
| Dns.DecodesExactlyWireForms | gateway/src/dns.ts:22-48 | decoding succeeds exactly on the wire form of a list of labels of 1 to 63 bytes of valid UTF-8, and that list is unique |
| Dns.FailsExactly | gateway/src/dns.ts:22-48 | decoding fails with an error exactly when some valid labels are followed by what it says: nothing, bytes after the root, a label above 63 bytes, too few bytes, or no UTF-8 |
| Dns.WorkedExample | gateway/src/dns.ts:36-48 | two labels a and b are the name a.b |
| Dns.DecodeInvertsEncode | gateway/src/dns.ts:17-49 | the decoder inverts the encoder on every list of encodable labels |
| Dns.SameNameExactly | gateway/src/dns.ts:36-48 | two inputs without dots in labels give one name exactly when their labels agree but for leading byte order marks, or both names are empty |
| Dns.NamesDetermineInputs | gateway/src/dns.ts:17-49 | without dots and byte order marks the name determines the input |
| Dns.MarksDisappear | gateway/src/dns.ts:36-41 | dots alone are not the condition: a leading byte order mark vanishes, so different inputs give one name |
| Clock.CountHours | cli/src/core/exposure.ts:190-194 | the array loop computes the histogram |
| Clock.FindQuietest | cli/src/core/exposure.ts:196-206 | the loop finds the earliest start of a quietest eight hours |
| Clock.FindBusiest | cli/src/core/exposure.ts:208-214 | the loop finds the largest eight-hour total |
| Clock.InferClock | cli/src/core/exposure.ts:186-245 | a fingerprint is given exactly when some time is usable, and describes those times |
| Clock.UsableExactly | cli/src/core/exposure.ts:187 | the usable times are the finite ones after the epoch, each as often as given |
| Clock.HourExactly | cli/src/core/exposure.ts:190-194 | the hour of day counts whole days and whole hours |
| Clock.ConfidenceExactly | cli/src/core/exposure.ts:228-234 | strong from 40 samples and 0.7, weak below 15 samples or 0.55 |
| Clock.HistogramTotal | cli/src/core/exposure.ts:190-194 | the histogram holds exactly the usable times a date can hold |
| Clock.WindowsCountEachHour | cli/src/core/exposure.ts:199-206 | the 24 circular windows of k hours together count every sample k times |
| Clock.FingerprintBounds | cli/src/core/exposure.ts:196-223 | for times dates can hold: the histogram counts all samples, the quietest night at most a third, and the concentration lies between a third and one |
| Clock.BeyondDatesUncounted | cli/src/core/exposure.ts:190-194 | a time past the range of dates is a sample in no hour, and the concentration can drop to zero |
| Clock.OffsetPutsNightAtMidnight | cli/src/core/exposure.ts:224-226 | the implied offset is the one time zone in -11..12 that puts the quiet start at midnight |
| Clock.BusiestAreMostActive | cli/src/core/exposure.ts:216-221 | an active hour is left out only when three more active or earlier equally active hours are listed |
| Wrap.Wrap | cli/src/render/format.ts:145-159 | the loop renders the greedy layout of the words |
| Wrap.WordsOfText | cli/src/render/format.ts:145-148 | the words are the runs of anything but white space: nothing else is lost and none is split |
| Wrap.WrapKeepsWords | cli/src/render/format.ts:145-159 | the lines hold the words of the text in order, and a line exceeds the width only when it is one word |
| Wrap.FewestLines | cli/src/render/format.ts:149-156 | no layout of the words into fitting lines has fewer lines |
| Attestation.IdentifyClosingInstruction | solana/src/verify.ts:252-298 | the loop finds the first attestation close of a readable transaction |
| Attestation.FindRevocation | solana/src/verify.ts:209-238 | the loop returns the newest inspected transaction with a close |
| Attestation.StandsExactly | solana/src/issue.ts:102-128 | in every run a subject has an account exactly when the last successful transaction on it issued one, and it is the account issued then |
| Attestation.CloseBetweenCreations | solana/src/issue.ts:102-109 | in every run, between two successful issues for one subject a close of it succeeded: a subject never holds two attestations |
| Attestation.IssueLandsExactly | solana/src/issue.ts:102-128 | in every run an issue that passed its check lands unless, when it does, the last thing done to its subject is an issue made since the check |
| Attestation.ValidExactly | solana/src/verify.ts:49-178 | in every run, valid means exactly: the schema exists as expected and unpaused, and the last successful transaction on the subject issued an attestation that carries what was shown and has not lapsed |
| Attestation.AnswersExactly | solana/src/verify.ts:115-178 | in every run, of an attestation that stands: drift, wrong reference, wrong commitment, paused and expired each exactly when the tests before pass and its own does not |
| Attestation.NotFoundExactly | solana/src/verify.ts:83-113 | not found means exactly: no schema, or no attestation and no close found or looked for or the signatures not to be had |
| Attestation.RevokedExactly | solana/src/verify.ts:83-113 | with reads succeeding, revoked means exactly: schema present, account absent, history checked, and a close in one of the five newest successful transactions among the last twenty at the address |
| Attestation.InspectedExactly | solana/src/verify.ts:209-220 | in every run a successful transaction at the address is inspected exactly as long as fewer than twenty transactions and fewer than five successful ones have named it since |
| Attestation.RevokedByIssuerExactly | solana/src/verify.ts:199-238 | in every run and whatever can be read: a revoked answer names a transaction, which is a close by which the issuer took this attestation exactly when its first close is about the subject's own address |
| Attestation.RevokedMeansClosed | solana/src/verify.ts:199-238 | in every run in which nobody else succeeds with a transaction that names the address and carries a close, revoked means the issuer closed the attestation |
| Attestation.ForeignCloseReadsAsRevoked | solana/src/verify.ts:277-293 | otherwise it need not: an address that never held an attestation reads as revoked once anyone names it while closing an attestation of theirs |
| Attestation.RevokedUntilBuried | solana/src/verify.ts:209-238 | after a close lands, verify answers revoked until five successful or twenty transactions have named the address, in every run |
| Attestation.IssuePreparedExactly | solana/src/issue.ts:88-109 | an issue is prepared exactly when the schema is there and as expected and the subject holds nothing |
| Attestation.ClosePreparedExactly | solana/src/revoke.ts:84-109 | a close is prepared exactly when the schema is as expected and the subject holds an attestation with the reference given, if one is, and, unless forced, an expiry that has come |
| Attestation.IssueRefusedExactly | solana/src/issue.ts:88-109 | why an issue is refused: no schema, a schema that drifted, or an attestation that is there |
| Attestation.CloseRefusedExactly | solana/src/revoke.ts:84-109 | why a close is refused: nothing to close, then the schema, then another reference than the one given, then, unless forced, a lapse that has not come |
| Attestation.WrongReferenceExactly | solana/src/revoke.ts:93-125 | in every run a close given a reference takes an attestation of another one exactly when the subject's was closed and one of another reference issued while it was on its way |
| Attestation.UnforcedCloseTakesLapsed | solana/src/revoke.ts:100-125 | in every run, an unforced close takes an attestation that verify calls expired, unless another close of the subject lands while it is on its way |
| Attestation.LateCloseExactly | solana/src/revoke.ts:84-125 | in every run, it takes a live one exactly when the attestation was closed and a new one issued while it was on its way that is live when it lands |
| Attestation.LateCloseTakesLive | solana/src/revoke.ts:84-125 | and that happens: a run in which the unforced close takes down an attestation that verify calls valid |

## Left out

- Ill-typed upstream bodies: null entries and data that is not a list, on which the source throws, read as empty here; so do an `id`, `digest` or `derivationId` that is not a string.
- Object-valued claim ids, which the source's maps compare by identity, are compared by their normal form.
- Sparse arrays: a hole in an array is not told apart from an undefined slot.
- Numbers longer than the shortest decimal a double prints as: parsing keeps all digits instead of rounding to the nearest double.
- Floating point: money, times and ratios are reals, so sums do not depend on their order and nothing overflows.
- A window whose dates do not parse: the source then compares with NaN, and what it derives is a parameter here (`Verify.Build.undated`); the laws about derived claims are for windows that parse.
- Locale collation is any strict total order on asset keys; chain-name normalisation, date parsing, numeral parsing and lower-casing are parameters.
- The prose of statements, symbols, display fields of readings, and the text of error messages.
- The ten guarded pushes of `deriveClaims` are one loop over the specifications in their order.
- Malformed UTF-8: the replacement decoding of `TextDecoder` is a parameter of `Envelope.DecodeBytes`, and the chunk decoder of `Ndjson` is only related to the whole for valid UTF-8.
- Request routing, retries, rate metering and credits of the API client; the plan of `WorkerPool` is any list of requests, so both phases of the collection are instances (`Collection.ScheduleIrrelevant`).
- `onProgress` throwing, and the fields of a progress event other than its count.
- Ranking.RankTradedAssets: volumes sent as text are read as amounts, where the source would concatenate them.
- The text format of the store file: a file holds its two maps, or does not parse. A temporary file left by a crash is never read, so it is not part of the state.
- Publish.NextKeeps: signature recovery and the owner lookup are one nondeterministic answer per publish.
- Listeners of `PatchQueue` are a log of the depths they were shown; a listener that throws is not modelled.
- The clock of the queue, the feed and the ledger never goes back, a sleep lasts at least as long as asked, and a rename is atomic.
- Feed: fetching, following a reference and parsing an envelope are one read that shows the feed at an instant inside it; the recorded failure is kept for the health report, which is not modelled. Resolver and data-key checks of a lookup, and its encoding, are not modelled.
- Attestation: the on-chain program is reduced to what its client relies on: creation needs an absent account, closing a present one of the same kind, and only the issuer's transactions touch the issuer's attestations. Addresses are named by their subject. Undecodable account data, token accounts and mint sizing are not part of this model.
- Upper-casing and date formatting in the machine-readable zone: fields arrive upper-cased and dates as six characters.
- Hex input of `decodeDnsName`: the decoder starts from bytes.
- Aggregation by asset in `analyseExposure`, venues, labels and holdings: sums like those of `Derive` and `Ranking`.
- Postage amounts, hex spelling, field names and the comparison of schema layouts: identifiers, commitments and keys are compared as the texts they are and a layout is either as expected or not, so no result here rests on how they are spelt or priced.
- Swarm access control, the Solidity contracts, cryptography, RPC plumbing, configuration, health reports and user interface.
