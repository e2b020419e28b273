/** How an evidence bundle is read: the typed slices of `upstream.ts` out of recorded JSON, and why
    a bundle reads the same before and after it has been sealed and opened. */
module Reading {
  import opened Utf
  import opened Numbers
  import opened Json
  import opened Canonical
  import opened Access
  import opened Derive

  /** What the runtime does with text: `Date.parse`, `Number()`, `toLowerCase`, chain-name
      normalisation and locale order. */
  datatype Env = Env(
    parseDate: Text -> Option<real>,
    parseNumber: Text -> Option<real>,
    lower: Text -> Text,
    chain: Text -> Option<Text>,
    before: (Text, Text) -> bool)

  const K_ADDRESS := Ascii("address")
  const K_BODY := Ascii("body")
  const K_CHAIN := Ascii("chainId")
  const K_CYCLE := Ascii("cycle")
  const K_DATA := Ascii("data")
  const K_DATE := Ascii("date")
  const K_DETAILS := Ascii("securityScoreDetails")
  const K_ENDPOINT := Ascii("endpoint")
  const K_ENTRY := Ascii("entryDate")
  const K_EXIT := Ascii("exitDate")
  const K_FEES := Ascii("feesUSD")
  const K_FROM := Ascii("from")
  const K_INDEX := Ascii("index")
  const K_KILLED := Ascii("killed")
  const K_MEV := Ascii("mevFeesUSD")
  const K_OPEN := Ascii("isOpen")
  const K_PARAMS := Ascii("params")
  const K_PNL := Ascii("realizedPnlUSD")
  const K_SCORE := Ascii("securityScore")
  const K_TO := Ascii("to")
  const K_TOKEN := Ascii("token")
  const K_TOTAL_FEES := Ascii("totalFeesUSD")
  const K_UNAVAILABLE := Ascii("unavailable")
  const K_VOLUME_BUY := Ascii("volumeBuyUSD")
  const K_VOLUME_SELL := Ascii("volumeSellUSD")
  const K_WINDOW := Ascii("window")

  const UNKNOWN := Ascii("unknown")
  const BAR: Unit := 124

  /** `toMs`. */
  function TimeOf(env: Env, v: Value): Option<real> {
    match v
    case Num(x) => Some(ToReal(Unsigned(x)))
    case Str(s) => env.parseDate(s)
    case _ => None
  }

  /** `num`: anything unusable counts as zero. */
  function AmountOf(env: Env, v: Value): real {
    match v
    case Num(x) => ToReal(Unsigned(x))
    case Str(s) => (match env.parseNumber(s) case Some(r) => r case None => 0.0)
    case _ => 0.0
  }

  /** `String(v)` of the identifiers upstream sends. */
  function Spelled(v: Value): Text {
    match v
    case Str(s) => s
    case Num(x) => NumberText(x)
    case _ => []
  }

  function ChainOf(env: Env, v: Value): Option<Text> {
    if v.Str? || v.Num? then env.chain(Spelled(v)) else None
  }

  function AssetKey(env: Env, chain: Option<Text>, address: Text): Text {
    (if chain.Some? then chain.value else UNKNOWN) + [BAR] + env.lower(address)
  }

  function ReadAsset(env: Env, token: Value): Text {
    AssetKey(env, ChainOf(env, Field(token, K_CHAIN)), env.lower(TextOf(Field(token, K_ADDRESS))))
  }

  datatype Money = Money(pnl: real, fees: real, volume: real)

  function ReadMoney(env: Env, cycle: Value): Money {
    Money(AmountOf(env, Field(cycle, K_PNL)), AmountOf(env, Field(cycle, K_FEES)),
          AmountOf(env, Field(cycle, K_VOLUME_BUY)) + AmountOf(env, Field(cycle, K_VOLUME_SELL)))
  }

  datatype Dates = Dates(open: bool, entry: Option<real>, exit: Option<real>)

  function ReadDates(env: Env, cycle: Value): Dates {
    Dates(Nullish(cycle) || Truthy(Field(cycle, K_OPEN)),
          TimeOf(env, Field(cycle, K_ENTRY)), TimeOf(env, Field(cycle, K_EXIT)))
  }

  /** A closed cycle with an exit date, or nothing. */
  function ToClosed(asset: Text, d: Dates, m: Money): Option<Closed> {
    if d.open || d.exit.None? then None
    else Some(Closed(asset, d.entry, d.exit.value, m.pnl, m.fees, m.volume))
  }

  function ReadEntry(env: Env, entry: Value): Option<Closed> {
    var cycle := Field(entry, K_CYCLE);
    ToClosed(ReadAsset(env, Field(entry, K_TOKEN)), ReadDates(env, cycle), ReadMoney(env, cycle))
  }

  function ReadEntries(env: Env, items: seq<Value>): seq<Closed> {
    if items == [] then []
    else
      var rest := ReadEntries(env, items[1..]);
      match ReadEntry(env, items[0])
      case None => rest
      case Some(c) => [c] + rest
  }

  function ReadTrade(env: Env, t: Value): Trade {
    Trade(TimeOf(env, Field(t, K_DATE)), AmountOf(env, Field(t, K_TOTAL_FEES)), AmountOf(env, Field(t, K_MEV)))
  }

  function ReadTrades(env: Env, items: seq<Value>): (r: seq<Trade>)
    ensures |r| == |items| && forall i :: 0 <= i < |r| ==> r[i] == ReadTrade(env, items[i])
  {
    seq(|items|, i requires 0 <= i < |items| => ReadTrade(env, items[i]))
  }

  /** `a ?? b`. */
  function Coalesce(a: Value, b: Value): Value { if Nullish(a) then b else a }

  function ReadSecurity(env: Env, data: Value, params: Value): Security {
    var chain := ChainOf(env, Coalesce(Field(data, K_CHAIN), Field(params, K_CHAIN)));
    var address := env.lower(Spelled(Coalesce(Field(data, K_ADDRESS), Field(params, K_ADDRESS))));
    var score := Field(data, K_SCORE);
    Security(
      if address == [] then None else Some(AssetKey(env, chain, address)),
      if score.Num? then Some(ToReal(Unsigned(score.x))) else None,
      Field(Field(data, K_DETAILS), K_KILLED) == Bool(true))
  }

  function ReadBody(env: Env, body: Value, params: Value): Body {
    var data := Field(body, K_DATA);
    Body(ReadEntries(env, Items(data)), ReadTrades(env, Items(data)),
         ReadSecurity(env, data, params), TimeOf(env, Field(data, K_DATE)))
  }

  function EndpointOf(t: Text): Endpoint {
    if t == Ascii("GET /2/wallet/positions-history") then History
    else if t == Ascii("GET /2/wallet/trades") then Trades
    else if t == Ascii("GET /2/token/security") then TokenSecurity
    else if t == Ascii("GET /2/wallet/funding") then Funding
    else Other
  }

  function ReadSource(env: Env, v: Value): Source {
    Source(
      NumberOf(Field(v, K_INDEX)), EndpointOf(TextOf(Field(v, K_ENDPOINT))),
      Field(v, K_UNAVAILABLE) == Undefined && !Nullish(Field(v, K_BODY)),
      ReadBody(env, Field(v, K_BODY), Field(v, K_PARAMS)))
  }

  function ReadSources(env: Env, items: seq<Value>): (r: seq<Source>)
    ensures |r| == |items| && forall i :: 0 <= i < |r| ==> r[i] == ReadSource(env, items[i])
  {
    seq(|items|, i requires 0 <= i < |items| => ReadSource(env, items[i]))
  }

  /** The window, when both of its dates parse. */
  function ReadWindow(env: Env, bundle: Value): Option<Window> {
    var w := Field(bundle, K_WINDOW);
    match (env.parseDate(TextOf(Field(w, K_FROM))), env.parseDate(TextOf(Field(w, K_TO))))
    case (Some(from), Some(to)) => Some(Window(from, to))
    case _ => None
  }

  // Reads of the normal form

  ghost predicate Plainly(v: Value) { Readable(v) && NoBigInts(v) }

  /** Everything a scalar read can see of a field is the same in the normal form. */
  lemma {:induction false} FieldRead(env: Env, v: Value, k: Text)
    requires Plainly(v)
    ensures Field(Norm(v), k) == Norm(Field(v, k)) && Plainly(Field(v, k))
    ensures var x, y := Field(Norm(v), k), Field(v, k);
      && TextOf(x) == TextOf(y) && NumberOf(x) == NumberOf(y) && Truthy(x) == Truthy(y) && Nullish(x) == Nullish(y)
      && TimeOf(env, x) == TimeOf(env, y) && AmountOf(env, x) == AmountOf(env, y)
      && ChainOf(env, x) == ChainOf(env, y) && Spelled(x) == Spelled(y)
      && (x == Undefined <==> y == Undefined) && (x == Bool(true) <==> y == Bool(true)) && x.Num? == y.Num?
  {
    FieldNorm(v, k);
    FieldReadable(v, k);
    ScalarReads(Field(v, k));
    SpelledNorm(Field(v, k));
  }

  lemma {:induction false} SpelledNorm(v: Value)
    requires NoBigInts(v)
    ensures Spelled(Norm(v)) == Spelled(v)
  {
  }

  lemma {:induction false} AmountNorm(env: Env, v: Value, k: Text)
    requires Plainly(v)
    ensures AmountOf(env, Field(Norm(v), k)) == AmountOf(env, Field(v, k))
    ensures TimeOf(env, Field(Norm(v), k)) == TimeOf(env, Field(v, k))
    ensures Truthy(Field(Norm(v), k)) == Truthy(Field(v, k))
  {
    FieldRead(env, v, k);
  }

  lemma {:induction false} ReadMoneyNorm(env: Env, cycle: Value)
    requires Plainly(cycle)
    ensures ReadMoney(env, Norm(cycle)) == ReadMoney(env, cycle)
  {
    AmountNorm(env, cycle, K_PNL);
    AmountNorm(env, cycle, K_FEES);
    AmountNorm(env, cycle, K_VOLUME_BUY);
    AmountNorm(env, cycle, K_VOLUME_SELL);
  }

  lemma {:induction false} ReadDatesNorm(env: Env, cycle: Value)
    requires Plainly(cycle)
    ensures ReadDates(env, Norm(cycle)) == ReadDates(env, cycle)
  {
    AmountNorm(env, cycle, K_OPEN);
    AmountNorm(env, cycle, K_EXIT);
    AmountNorm(env, cycle, K_ENTRY);
    ScalarReads(cycle);
  }

  lemma {:induction false} ReadAssetNorm(env: Env, token: Value)
    requires Plainly(token)
    ensures ReadAsset(env, Norm(token)) == ReadAsset(env, token)
  {
    FieldRead(env, token, K_CHAIN);
    FieldRead(env, token, K_ADDRESS);
  }

  lemma {:induction false} ReadEntryNorm(env: Env, entry: Value)
    requires Plainly(entry)
    ensures ReadEntry(env, Norm(Slot(entry))) == ReadEntry(env, entry)
  {
    FieldRead(env, entry, K_CYCLE);
    FieldRead(env, entry, K_TOKEN);
    ReadMoneyNorm(env, Field(entry, K_CYCLE));
    ReadDatesNorm(env, Field(entry, K_CYCLE));
    ReadAssetNorm(env, Field(entry, K_TOKEN));
  }

  lemma {:induction false} ReadEntriesNorm(env: Env, a: seq<Value>, b: seq<Value>)
    requires |a| == |b| && forall i :: 0 <= i < |a| ==> Plainly(a[i]) && b[i] == Norm(Slot(a[i]))
    ensures ReadEntries(env, b) == ReadEntries(env, a)
  {
    hide ReadEntry, Norm, Slot, Plainly;
    if a != [] {
      ReadEntryNorm(env, a[0]);
      ReadEntriesNorm(env, a[1..], b[1..]);
    }
  }

  lemma {:induction false} ReadTradeNorm(env: Env, t: Value)
    requires Plainly(t)
    ensures ReadTrade(env, Norm(Slot(t))) == ReadTrade(env, t)
  {
    FieldRead(env, t, K_DATE);
    FieldRead(env, t, K_TOTAL_FEES);
    FieldRead(env, t, K_MEV);
  }

  lemma {:induction false} CoalesceNorm(env: Env, data: Value, params: Value, k: Text)
    requires Plainly(data) && Plainly(params)
    ensures
      var x, y := Coalesce(Field(Norm(data), k), Field(Norm(params), k)), Coalesce(Field(data, k), Field(params, k));
      ChainOf(env, x) == ChainOf(env, y) && Spelled(x) == Spelled(y)
  {
    hide Field, Norm, Nullish, Spelled, ChainOf, Readable, NoBigInts;
    FieldRead(env, data, k);
    FieldRead(env, params, k);
  }

  lemma {:induction false} ScoreNorm(env: Env, data: Value, k: Text)
    requires Plainly(data)
    ensures var x, y := Field(Norm(data), k), Field(data, k);
      x.Num? == y.Num? && (x.Num? ==> Unsigned(x.x) == Unsigned(y.x))
  {
    FieldRead(env, data, k);
  }

  lemma {:induction false} ReadSecurityNorm(env: Env, data: Value, params: Value)
    requires Plainly(data) && Plainly(params)
    ensures ReadSecurity(env, Norm(data), Norm(params)) == ReadSecurity(env, data, params)
  {
    hide Field, Norm, Readable, NoBigInts, ChainOf, Spelled, Coalesce, AssetKey, Unsigned, ToReal;
    CoalesceNorm(env, data, params, K_CHAIN);
    CoalesceNorm(env, data, params, K_ADDRESS);
    ScoreNorm(env, data, K_SCORE);
    FieldRead(env, data, K_DETAILS);
    FieldRead(env, Field(data, K_DETAILS), K_KILLED);
  }

  lemma {:induction false} ReadTradesNorm(env: Env, a: seq<Value>, b: seq<Value>)
    requires |a| == |b| && forall i :: 0 <= i < |a| ==> Plainly(a[i]) && b[i] == Norm(Slot(a[i]))
    ensures ReadTrades(env, b) == ReadTrades(env, a)
  {
    forall i | 0 <= i < |a|
      ensures ReadTrade(env, b[i]) == ReadTrade(env, a[i])
    {
      ReadTradeNorm(env, a[i]);
    }
  }

  lemma {:induction false} ReadBodyNorm(env: Env, body: Value, params: Value)
    requires Plainly(body) && Plainly(params)
    ensures ReadBody(env, Norm(body), Norm(params)) == ReadBody(env, body, params)
  {
    FieldRead(env, body, K_DATA);
    var data := Field(body, K_DATA);
    ItemsNorm(data);
    ReadEntriesNorm(env, Items(data), Items(Norm(data)));
    ReadTradesNorm(env, Items(data), Items(Norm(data)));
    ReadSecurityNorm(env, data, params);
    AmountNorm(env, data, K_DATE);
  }

  lemma {:induction false} ReadSourceNorm(env: Env, v: Value)
    requires Plainly(v)
    ensures ReadSource(env, Norm(v)) == ReadSource(env, v)
  {
    FieldRead(env, v, K_INDEX);
    FieldRead(env, v, K_ENDPOINT);
    FieldRead(env, v, K_UNAVAILABLE);
    FieldRead(env, v, K_BODY);
    FieldRead(env, v, K_PARAMS);
    ReadBodyNorm(env, Field(v, K_BODY), Field(v, K_PARAMS));
  }

  // What is read, by the names upstream uses

  /** A date or an amount as upstream sends it: a number, or text the runtime makes a number of. */
  predicate Reads(v: Value, parse: Text -> Option<real>, r: real) {
    (v.Num? && r == ToReal(v.x)) || (v.Str? && parse(v.s) == Some(r))
  }

  lemma {:induction false} ReadsAmount(env: Env, v: Value, r: real)
    requires Reads(v, env.parseNumber, r)
    ensures AmountOf(env, v) == r
  {
  }

  lemma {:induction false} ReadsTime(env: Env, v: Value, r: real)
    requires Reads(v, env.parseDate, r)
    ensures TimeOf(env, v) == Some(r)
  {
  }

  /** What is neither a number nor text that reads as one counts as nothing. */
  lemma {:induction false} NothingRead(env: Env, v: Value)
    requires !v.Num?
    ensures (v.Str? ==> env.parseNumber(v.s) == None) ==> AmountOf(env, v) == 0.0
    ensures (v.Str? ==> env.parseDate(v.s) == None) ==> TimeOf(env, v) == None
    ensures ToReal(NumberOf(v)) == 0.0 && (!v.Str? ==> ChainOf(env, v) == None)
  {
  }

  /** The window is read from its two dates, and not at all when one does not parse. */
  lemma {:induction false} WindowReads(env: Env, bundle: Value, from: Text, to: Text)
    requires Field(Field(bundle, Ascii("window")), Ascii("from")) == Str(from)
    requires Field(Field(bundle, Ascii("window")), Ascii("to")) == Str(to)
    ensures ReadWindow(env, bundle).Some? <==> env.parseDate(from).Some? && env.parseDate(to).Some?
    ensures forall w :: ReadWindow(env, bundle) == Some(w) ==>
      env.parseDate(from) == Some(w.from) && env.parseDate(to) == Some(w.to)
  {
    hide Field;
  }

  /** The name an asset goes by: its chain, a bar and its address in lower case. */
  function AssetName(env: Env, chain: Text, address: Text): Text {
    (match env.chain(chain) case Some(c) => c case None => Ascii("unknown")) + Ascii("|") + env.lower(address)
  }

  predicate TokenIs(t: Value, chain: Text, address: Text) {
    Field(t, Ascii("chainId")) == Str(chain) && Field(t, Ascii("address")) == Str(address)
  }

  predicate MoneyIs(env: Env, cycle: Value, pnl: real, fees: real, buy: real, sell: real) {
    && Reads(Field(cycle, Ascii("realizedPnlUSD")), env.parseNumber, pnl)
    && Reads(Field(cycle, Ascii("feesUSD")), env.parseNumber, fees)
    && Reads(Field(cycle, Ascii("volumeBuyUSD")), env.parseNumber, buy)
    && Reads(Field(cycle, Ascii("volumeSellUSD")), env.parseNumber, sell)
  }

  /** Closed, with these dates. */
  predicate DatesAre(env: Env, cycle: Value, entry: real, exit: real) {
    && Field(cycle, Ascii("isOpen")) == Bool(false)
    && Reads(Field(cycle, Ascii("entryDate")), env.parseDate, entry)
    && Reads(Field(cycle, Ascii("exitDate")), env.parseDate, exit)
  }

  lemma {:induction false} TokenRead(env: Env, t: Value, chain: Text, address: Text)
    requires TokenIs(t, chain, address)
    ensures ReadAsset(env, t) == AssetName(env, chain, env.lower(address))
  {
    hide Field;
    assert BarText();
  }

  lemma {:induction false} MoneyRead(env: Env, cycle: Value, pnl: real, fees: real, buy: real, sell: real)
    requires MoneyIs(env, cycle, pnl, fees, buy, sell)
    ensures ReadMoney(env, cycle) == Money(pnl, fees, buy + sell)
  {
    hide Field, Reads, AmountOf;
    ReadsAmount(env, Field(cycle, K_PNL), pnl);
    ReadsAmount(env, Field(cycle, K_FEES), fees);
    ReadsAmount(env, Field(cycle, K_VOLUME_BUY), buy);
    ReadsAmount(env, Field(cycle, K_VOLUME_SELL), sell);
  }

  lemma {:induction false} DatesRead(env: Env, cycle: Value, entry: real, exit: real)
    requires DatesAre(env, cycle, entry, exit)
    ensures ReadDates(env, cycle) == Dates(false, Some(entry), Some(exit))
  {
    hide Reads, TimeOf;
    ReadsTime(env, Field(cycle, K_ENTRY), entry);
    ReadsTime(env, Field(cycle, K_EXIT), exit);
  }

  /** An entry is read, field by field, as the closed cycle it lists. */
  lemma {:induction false} EntryReads(env: Env, entry: Value, chain: Text, address: Text, c: Closed,
      buy: real, sell: real)
    requires TokenIs(Field(entry, Ascii("token")), chain, address)
    requires c.entryMs.Some? && DatesAre(env, Field(entry, Ascii("cycle")), c.entryMs.value, c.exitMs)
    requires MoneyIs(env, Field(entry, Ascii("cycle")), c.pnl, c.fees, buy, sell) && c.volume == buy + sell
    requires c.asset == AssetName(env, chain, env.lower(address))
    ensures ReadEntry(env, entry) == Some(c)
  {
    hide Field, TokenIs, DatesAre, MoneyIs, AssetName, ReadAsset, ReadMoney, ReadDates;
    TokenRead(env, Field(entry, K_TOKEN), chain, address);
    DatesRead(env, Field(entry, K_CYCLE), c.entryMs.value, c.exitMs);
    MoneyRead(env, Field(entry, K_CYCLE), c.pnl, c.fees, buy, sell);
  }

  predicate BarText() { Ascii("|") == [BAR] }

  /** An entry that is open, or has no exit date, is no closed cycle. */
  lemma {:induction false} OpenEntry(env: Env, entry: Value)
    requires var cycle := Field(entry, Ascii("cycle"));
      Truthy(Field(cycle, Ascii("isOpen"))) || Nullish(Field(cycle, Ascii("exitDate")))
    ensures ReadEntry(env, entry) == None
  {
  }

  lemma {:induction false} TradeReads(env: Env, t: Value, at: real, total: real, mev: real)
    requires Reads(Field(t, Ascii("date")), env.parseDate, at)
    requires Reads(Field(t, Ascii("totalFeesUSD")), env.parseNumber, total)
    requires Reads(Field(t, Ascii("mevFeesUSD")), env.parseNumber, mev)
    ensures ReadTrade(env, t) == Trade(Some(at), total, mev)
  {
    hide Field, Reads, TimeOf, AmountOf;
    ReadsTime(env, Field(t, Ascii("date")), at);
    ReadsAmount(env, Field(t, Ascii("totalFeesUSD")), total);
    ReadsAmount(env, Field(t, Ascii("mevFeesUSD")), mev);
  }

  /** The response names it, or leaves it to the request. */
  predicate Named(data: Value, params: Value, k: Text, t: Text) {
    Field(data, k) == Str(t) || (Nullish(Field(data, k)) && Field(params, k) == Str(t))
  }

  /** A security response, which may leave chain and address to the request. */
  lemma {:induction false} SecurityReads(env: Env, data: Value, params: Value, chain: Text, address: Text)
    requires Named(data, params, Ascii("chainId"), chain) && Named(data, params, Ascii("address"), address)
    requires env.lower(address) != []
    ensures var s := ReadSecurity(env, data, params);
      s.asset == Some(AssetName(env, chain, env.lower(address))) && s.killed == KilledIn(data)
    ensures var score := Field(data, Ascii("securityScore"));
      ReadSecurity(env, data, params).score == if score.Num? then Some(ToReal(score.x)) else None
  {
    hide Field;
    assert BarText();
  }

  predicate KilledIn(data: Value) {
    Field(Field(data, Ascii("securityScoreDetails")), Ascii("killed")) == Bool(true)
  }

  /** Which responses are which. */
  lemma {:induction false} EndpointNamed(t: Text)
    ensures EndpointOf(t) == History <==> t == Ascii("GET /2/wallet/positions-history")
    ensures EndpointOf(t) == Trades <==> t == Ascii("GET /2/wallet/trades")
  {
    assert |Ascii("GET /2/wallet/positions-history")| == 31 && |Ascii("GET /2/wallet/trades")| == 20;
  }

  lemma {:induction false} LookupNamed(t: Text)
    ensures EndpointOf(t) == TokenSecurity <==> t == Ascii("GET /2/token/security")
    ensures EndpointOf(t) == Funding <==> t == Ascii("GET /2/wallet/funding")
  {
    assert |Ascii("GET /2/wallet/positions-history")| == 31 && |Ascii("GET /2/wallet/trades")| == 20;
    assert Ascii("GET /2/token/security")[7] == 116 && Ascii("GET /2/wallet/funding")[7] == 119;
  }

  /** The source carries a body and no mark that it is missing. */
  predicate Answered(v: Value) {
    Field(v, Ascii("unavailable")) == Undefined && !Nullish(Field(v, Ascii("body")))
  }

  /** A source is its index, its endpoint, whether it answered, and what its body and parameters read as. */
  lemma {:induction false} SourceReads(env: Env, v: Value, index: Number, endpoint: Text)
    requires Field(v, Ascii("index")) == Num(index) && Field(v, Ascii("endpoint")) == Str(endpoint)
    ensures var s := ReadSource(env, v);
      ToReal(s.index) == ToReal(index) && s.endpoint == EndpointOf(endpoint) && (s.usable <==> Answered(v))
    ensures ReadSource(env, v).body == BodyOf(env, v)
  {
    hide Field, ReadBody, EndpointOf;
  }

  function BodyOf(env: Env, v: Value): Body { ReadBody(env, Field(v, Ascii("body")), Field(v, Ascii("params"))) }

  lemma {:induction false} EntriesRead(env: Env, items: seq<Value>, c: Closed)
    ensures c in ReadEntries(env, items) <==> exists i :: 0 <= i < |items| && ReadEntry(env, items[i]) == Some(c)
  {
    hide ReadEntry;
    if items != [] {
      EntriesRead(env, items[1..], c);
      assert items == [items[0]] + items[1..];
    }
  }

  /** The parts of a body: its closed cycles, all of its trades, its security data and its funding date. */
  lemma {:induction false} BodyReads(env: Env, body: Value, params: Value)
    ensures var b, data := ReadBody(env, body, params), Field(body, Ascii("data"));
      && (forall c :: c in b.history <==>
        exists i :: 0 <= i < |Items(data)| && ReadEntry(env, Items(data)[i]) == Some(c))
      && |b.trades| == |Items(data)|
      && (forall i :: 0 <= i < |b.trades| ==> b.trades[i] == ReadTrade(env, Items(data)[i]))
      && b.security == ReadSecurity(env, data, params)
      && (forall at :: Reads(Field(data, Ascii("date")), env.parseDate, at) ==> b.funded == Some(at))
  {
    var data := Field(body, Ascii("data"));
    hide ReadEntry, ReadTrade, ReadSecurity, Reads, TimeOf;
    forall c
      ensures c in ReadEntries(env, Items(data)) <==>
        exists i :: 0 <= i < |Items(data)| && ReadEntry(env, Items(data)[i]) == Some(c)
    {
      EntriesRead(env, Items(data), c);
    }
    forall at | Reads(Field(data, Ascii("date")), env.parseDate, at)
      ensures TimeOf(env, Field(data, Ascii("date"))) == Some(at)
    {
      ReadsTime(env, Field(data, Ascii("date")), at);
    }
  }
}
