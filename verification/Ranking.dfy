/** Which assets get a security lookup (`rankTradedAssets` in packages/evidence/src/collect.ts). */
module Ranking {
  import opened Utf
  import opened Numbers
  import opened Json
  import opened Canonical
  import opened Access
  import opened Derive
  import opened Reading
  import opened Evidence
  import Lists
  import Sorting

  const HISTORY_PATH := Ascii("/2/wallet/positions-history")

  /** One entry traded inside the window: its asset, and the key assets are grouped by. */
  datatype Listed = Listed(key: Text, address: Text, chain: Text, volume: real)

  datatype Asset = Asset(address: Text, chain: Text, volume: real)

  /** The entry as the ranking reads it; closed or not, it only needs an exit inside the window, a
      known chain and an address. */
  function ReadListed(env: Env, w: Window, entry: Value): Option<Listed> {
    var cycle, token := Field(entry, K_CYCLE), Field(entry, K_TOKEN);
    var exit := env.parseDate(Spelled(Field(cycle, K_EXIT)));
    var address, chain := TextOf(Field(token, K_ADDRESS)), ChainOf(env, Field(token, K_CHAIN));
    if exit.None? || !w.Contains(exit.value) || address == [] || chain.None? then None
    else
      Some(Listed(chain.value + [BAR] + env.lower(address), address, chain.value,
                  AmountOf(env, Field(cycle, K_VOLUME_BUY)) + AmountOf(env, Field(cycle, K_VOLUME_SELL))))
  }

  function ReadAll(env: Env, w: Window, items: seq<Value>, n: nat): seq<Listed>
    requires n <= |items|
  {
    if n == 0 then []
    else
      match ReadListed(env, w, items[n - 1])
      case None => ReadAll(env, w, items, n - 1)
      case Some(l) => ReadAll(env, w, items, n - 1) + [l]
  }

  /** The entries of a history response; nothing of any other. */
  function EntriesOf(r: Collected): seq<Value> {
    if r.path == HISTORY_PATH && r.outcome.Fetched? then Items(Field(r.outcome.body, K_DATA)) else []
  }

  /** The entries of the first `n` collected responses. */
  function ListedIn(env: Env, w: Window, rs: seq<Collected>, n: nat): seq<Listed>
    requires n <= |rs|
  {
    if n == 0 then []
    else ListedIn(env, w, rs, n - 1) + ReadAll(env, w, EntriesOf(rs[n - 1]), |EntriesOf(rs[n - 1])|)
  }

  // Grouping

  function Keys(ls: seq<Listed>, n: nat): (r: seq<Text>)
    requires n <= |ls|
    ensures forall i :: 0 <= i < n ==> ls[i].key in r
    ensures forall i, j :: 0 <= i < j < |r| ==> r[i] != r[j]
    ensures forall k :: k in r ==> exists i :: 0 <= i < n && ls[i].key == k
  {
    if n == 0 then []
    else
      var r := Keys(ls, n - 1);
      if ls[n - 1].key in r then r else r + [ls[n - 1].key]
  }

  /** What an entry makes of the group under `k`. */
  function Joined(g: Option<Asset>, l: Listed, k: Text): Option<Asset> {
    if l.key != k then g
    else match g
      case None => Some(Asset(l.address, l.chain, l.volume))
      case Some(a) => Some(a.(volume := a.volume + l.volume))
  }

  /** The asset grouped under `key` after `n` entries: named as first seen, volumes added up. */
  function Group(ls: seq<Listed>, n: nat, key: Text): Option<Asset>
    requires n <= |ls|
  {
    if n == 0 then None else Joined(Group(ls, n - 1, key), ls[n - 1], key)
  }

  lemma {:induction false} Grouped(ls: seq<Listed>, n: nat, key: Text)
    requires n <= |ls|
    ensures Group(ls, n, key).Some? <==> key in Keys(ls, n)
  {
    if n > 0 {
      Grouped(ls, n - 1, key);
    }
  }

  function Groups(ls: seq<Listed>, n: nat, keys: seq<Text>): (r: seq<Asset>)
    requires n <= |ls| && forall k :: k in keys ==> Group(ls, n, k).Some?
    ensures |r| == |keys| && forall i :: 0 <= i < |r| ==> Group(ls, n, keys[i]) == Some(r[i])
  {
    seq(|keys|, i requires 0 <= i < |keys| => Group(ls, n, keys[i]).value)
  }

  function Assets(ls: seq<Listed>): seq<Asset> {
    GroupedAll(ls);
    Groups(ls, |ls|, Keys(ls, |ls|))
  }

  lemma {:induction false} GroupedAll(ls: seq<Listed>)
    ensures forall k :: k in Keys(ls, |ls|) ==> Group(ls, |ls|, k).Some?
  {
    forall k | k in Keys(ls, |ls|)
      ensures Group(ls, |ls|, k).Some?
    {
      Grouped(ls, |ls|, k);
    }
  }

  predicate BusierThan(before: (Text, Text) -> bool, a: Asset, b: Asset) {
    a.volume > b.volume || (a.volume == b.volume && before(a.address, b.address))
  }

  function Busier(before: (Text, Text) -> bool): (Asset, Asset) -> bool {
    (a, b) => BusierThan(before, a, b)
  }

  function Ranked(before: (Text, Text) -> bool, ls: seq<Listed>): seq<Asset> {
    Sorting.Sort(Busier(before), Assets(ls))
  }

  /** `slice(0, Math.max(0, limit))`. */
  function FirstOf<T>(s: seq<T>, limit: int): (r: seq<T>)
    ensures r <= s && |r| == if limit < 0 then 0 else if limit < |s| then limit else |s|
  {
    if limit <= 0 then [] else if limit < |s| then s[..limit] else s
  }

  lemma {:induction false} KeysPrefix(ls: seq<Listed>, l: Listed, n: nat)
    requires n <= |ls|
    ensures Keys(ls + [l], n) == Keys(ls, n)
  {
    if n > 0 {
      KeysPrefix(ls, l, n - 1);
      assert (ls + [l])[n - 1] == ls[n - 1];
    }
  }

  lemma {:induction false} GroupPrefix(ls: seq<Listed>, l: Listed, n: nat, k: Text)
    requires n <= |ls|
    ensures Group(ls + [l], n, k) == Group(ls, n, k)
  {
    if n > 0 {
      GroupPrefix(ls, l, n - 1, k);
      assert (ls + [l])[n - 1] == ls[n - 1];
    }
  }

  lemma {:induction false} KeysSnoc(ls: seq<Listed>, l: Listed)
    ensures Keys(ls + [l], |ls| + 1) == Keys(ls, |ls|) + if l.key in Keys(ls, |ls|) then [] else [l.key]
  {
    KeysPrefix(ls, l, |ls|);
  }

  lemma {:induction false} GroupSnoc(ls: seq<Listed>, l: Listed, k: Text)
    ensures Group(ls + [l], |ls| + 1, k) == Joined(Group(ls, |ls|, k), l, k)
  {
    GroupPrefix(ls, l, |ls|, k);
  }

  /** The map of the source: the groups of `ls`, with its keys in insertion order. */
  ghost predicate Grouping(byKey: map<Text, Asset>, keys: seq<Text>, ls: seq<Listed>) {
    && keys == Keys(ls, |ls|)
    && forall k :: Group(ls, |ls|, k) == if k in byKey then Some(byKey[k]) else None
  }

  method AddListed(byKey: map<Text, Asset>, keys: seq<Text>, l: Listed, ghost ls: seq<Listed>)
      returns (m: map<Text, Asset>, ks: seq<Text>)
    requires Grouping(byKey, keys, ls)
    ensures Grouping(m, ks, ls + [l])
  {
    hide Group, Keys;
    KeysSnoc(ls, l);
    forall k
      ensures Group(ls + [l], |ls| + 1, k) == Joined(Group(ls, |ls|, k), l, k)
    {
      GroupSnoc(ls, l, k);
    }
    Grouped(ls, |ls|, l.key);
    if l.key in byKey {
      m, ks := byKey[l.key := byKey[l.key].(volume := byKey[l.key].volume + l.volume)], keys;
    } else {
      m, ks := byKey[l.key := Asset(l.address, l.chain, l.volume)], keys + [l.key];
    }
  }

  method RankTradedAssets(env: Env, w: Window, rs: seq<Collected>, limit: int) returns (r: seq<Asset>)
    ensures r == FirstOf(Ranked(env.before, ListedIn(env, w, rs, |rs|)), limit)
  {
    hide Group, Keys, ReadListed, EntriesOf;
    var byKey: map<Text, Asset>, keys: seq<Text> := map[], [];
    NothingGrouped();
    for i := 0 to |rs|
      invariant Grouping(byKey, keys, ListedIn(env, w, rs, i))
    {
      var entries := EntriesOf(rs[i]);
      ghost var ls := ListedIn(env, w, rs, i);
      assert ls + ReadAll(env, w, entries, 0) == ls;
      for j := 0 to |entries|
        invariant Grouping(byKey, keys, ls + ReadAll(env, w, entries, j))
      {
        var listed := ReadListed(env, w, entries[j]);
        ghost var seen := ls + ReadAll(env, w, entries, j);
        if listed.Some? {
          byKey, keys := AddListed(byKey, keys, listed.value, seen);
          assert ls + ReadAll(env, w, entries, j + 1) == seen + [listed.value];
        }
      }
    }
    ghost var all := ListedIn(env, w, rs, |rs|);
    GroupedAll(all);
    var values := seq(|keys|, i requires 0 <= i < |keys| && keys[i] in byKey => byKey[keys[i]]);
    assert values == Assets(all);
    r := FirstOf(Sorting.Sort(Busier(env.before), values), limit);
  }

  lemma {:induction false} NothingGrouped()
    ensures Grouping(map[], [], [])
  {
  }

  // Laws

  function Total(assets: seq<Asset>, n: nat): real
    requires n <= |assets|
  {
    if n == 0 then 0.0 else Total(assets, n - 1) + assets[n - 1].volume
  }

  function ListedTotal(ls: seq<Listed>, n: nat): real
    requires n <= |ls|
  {
    if n == 0 then 0.0 else ListedTotal(ls, n - 1) + ls[n - 1].volume
  }

  /** The volumes grouped so far under the first `m` keys. */
  function GroupTotal(ls: seq<Listed>, n: nat, keys: seq<Text>, m: nat): real
    requires n <= |ls| && m <= |keys|
  {
    if m == 0 then 0.0
    else
      GroupTotal(ls, n, keys, m - 1)
      + match Group(ls, n, keys[m - 1]) case None => 0.0 case Some(a) => a.volume
  }

  lemma {:induction false} GroupTotalStep(ls: seq<Listed>, n: nat, keys: seq<Text>, m: nat)
    requires n < |ls| && m <= |keys| && forall i, j :: 0 <= i < j < |keys| ==> keys[i] != keys[j]
    ensures GroupTotal(ls, n + 1, keys, m)
         == GroupTotal(ls, n, keys, m) + if ls[n].key in keys[..m] then ls[n].volume else 0.0
  {
    if m > 0 {
      GroupTotalStep(ls, n, keys, m - 1);
      assert keys[..m] == keys[..m - 1] + [keys[m - 1]];
      assert keys[m - 1] !in keys[..m - 1];
    }
  }

  lemma {:induction false} GroupTotalNone(ls: seq<Listed>, keys: seq<Text>, m: nat)
    requires m <= |keys|
    ensures GroupTotal(ls, 0, keys, m) == 0.0
  {
    if m > 0 {
      GroupTotalNone(ls, keys, m - 1);
    }
  }

  lemma {:induction false} GroupsConserve(ls: seq<Listed>, n: nat, keys: seq<Text>)
    requires n <= |ls| && (forall i, j :: 0 <= i < j < |keys| ==> keys[i] != keys[j])
    requires forall i :: 0 <= i < n ==> ls[i].key in keys
    ensures GroupTotal(ls, n, keys, |keys|) == ListedTotal(ls, n)
  {
    hide Group;
    if n == 0 {
      GroupTotalNone(ls, keys, |keys|);
    } else {
      GroupsConserve(ls, n - 1, keys);
      GroupTotalStep(ls, n - 1, keys, |keys|);
      assert keys[..|keys|] == keys;
    }
  }

  lemma {:induction false} TotalOfGroups(ls: seq<Listed>, keys: seq<Text>, m: nat)
    requires m <= |keys| && forall k :: k in keys ==> Group(ls, |ls|, k).Some?
    ensures Total(Groups(ls, |ls|, keys), m) == GroupTotal(ls, |ls|, keys, m)
  {
    hide Group;
    if m > 0 {
      TotalOfGroups(ls, keys, m - 1);
    }
  }

  /** Grouping loses no volume: the assets' volumes add up to those of the entries. */
  lemma {:induction false} RankingConservesVolume(ls: seq<Listed>)
    ensures Total(Assets(ls), |Assets(ls)|) == ListedTotal(ls, |ls|)
  {
    var keys := Keys(ls, |ls|);
    GroupedAll(ls);
    TotalOfGroups(ls, keys, |keys|);
    GroupsConserve(ls, |ls|, keys);
  }

  lemma {:induction false} BusierStrict(before: (Text, Text) -> bool)
    requires Collation(before)
    ensures Sorting.StrictOrder(Busier(before))
  {
    var less := Busier(before);
    forall x: Asset, y: Asset
      ensures less(x, y) ==> !less(y, x)
    {
    }
    forall x: Asset, y: Asset, z: Asset
      ensures less(x, y) && less(y, z) ==> less(x, z)
      ensures less(x, y) ==> less(x, z) || less(z, y)
    {
      BusierTotal(before, x, y, z);
    }
  }

  lemma {:induction false} BusierTotal(before: (Text, Text) -> bool, x: Asset, y: Asset, z: Asset)
    requires Collation(before)
    ensures BusierThan(before, x, y) && BusierThan(before, y, z) ==> BusierThan(before, x, z)
    ensures BusierThan(before, x, y) ==> BusierThan(before, x, z) || BusierThan(before, z, y)
  {
    var a, b, c := x.address, y.address, z.address;
    assert before(a, b) && before(b, c) ==> before(a, c);
    assert before(a, b) ==> before(a, c) || before(c, b);
  }

  /** The assets looked up are the busiest: one that was traded and is not looked up is no busier than
      any that is, and is only left out because the limit was reached. */
  lemma {:induction false} BusiestAreLookedUp(before: (Text, Text) -> bool, ls: seq<Listed>, limit: int, a: Asset)
    requires Collation(before) && a in Assets(ls) && a !in FirstOf(Ranked(before, ls), limit)
    ensures |FirstOf(Ranked(before, ls), limit)| == if limit < 0 then 0 else limit
    ensures forall b :: b in FirstOf(Ranked(before, ls), limit) ==> b in Assets(ls) && b.volume >= a.volume
  {
    hide Assets, Collation;
    var r, s := FirstOf(Ranked(before, ls), limit), Ranked(before, ls);
    BusierStrict(before);
    Sorting.SortSorted(Busier(before), Assets(ls));
    Sorting.SortElements(Busier(before), Assets(ls));
    var j :| 0 <= j < |s| && s[j] == a;
    forall b | b in r
      ensures b in Assets(ls) && b.volume >= a.volume
    {
      var i :| 0 <= i < |r| && r[i] == b;
      assert s[i] == b && forall k :: 0 <= k < |r| ==> r[k] == s[k];
      assert !Busier(before)(s[j], s[i]);
    }
  }

  // What is ranked, and how

  function Keyed(key: Text): Listed -> bool { (l: Listed) => l.key == key }

  function VolumesOf(ls: seq<Listed>): (r: seq<real>)
    ensures |r| == |ls| && forall i :: 0 <= i < |r| ==> r[i] == ls[i].volume
  {
    seq(|ls|, i requires 0 <= i < |ls| => ls[i].volume)
  }

  /** The asset that the entries `under` one key make: named by the first, volumes added up. */
  predicate Makes(under: seq<Listed>, g: Option<Asset>) {
    && (g.None? <==> under == [])
    && (g.Some? ==> g.value.address == under[0].address && g.value.chain == under[0].chain)
    && (g.Some? ==> g.value.volume == Sum(VolumesOf(under), |under|))
  }

  lemma {:induction false} MakesMore(under: seq<Listed>, g: Option<Asset>, l: Listed)
    requires Makes(under, g)
    ensures Makes(under + [l], Joined(g, l, l.key))
  {
    VolumeAdded(under, l);
    assert Sum(VolumesOf([]), 0) == 0.0;
    hide Sum, VolumesOf;
  }

  /** An asset goes by the address and chain of the first entry under its key, and its volume is the sum of
      what all entries under the key list. */
  lemma {:induction false} GroupExactly(ls: seq<Listed>, n: nat, key: Text)
    requires n <= |ls|
    ensures Makes(Lists.Where(Keyed(key), ls[..n]), Group(ls, n, key))
  {
    if n == 0 {
      hide Sum;
    } else {
      hide Lists.Where, Makes, Sum, VolumesOf;
      GroupExactly(ls, n - 1, key);
      Lists.WhereStep(Keyed(key), ls, n - 1);
      var under := Lists.Where(Keyed(key), ls[..n - 1]);
      if Keyed(key)(ls[n - 1]) {
        MakesMore(under, Group(ls, n - 1, key), ls[n - 1]);
      } else {
        assert under + [] == under;
      }
    }
  }

  lemma {:induction false} VolumeAdded(ls: seq<Listed>, l: Listed)
    ensures Sum(VolumesOf(ls + [l]), |ls| + 1) == Sum(VolumesOf(ls), |ls|) + l.volume
  {
    assert VolumesOf(ls + [l]) == VolumesOf(ls) + [l.volume];
    SumConcat(VolumesOf(ls), [l.volume], 1);
    assert Sum([l.volume], 0) == 0.0;
  }

  /** Only histories that were fetched are ranked, entry by entry of their data. */
  lemma {:induction false} HistoriesRanked(r: Collected)
    ensures r.path == Ascii("/2/wallet/positions-history") && r.outcome.Fetched? ==>
      EntriesOf(r) == Items(Field(r.outcome.body, Ascii("data")))
    ensures r.path != Ascii("/2/wallet/positions-history") || r.outcome.Failed? ==> EntriesOf(r) == []
  {
    hide Field;
  }

  /** An entry with an exit inside the window, an address and a known chain is listed under both. */
  lemma {:induction false} ListedReads(env: Env, w: Window, entry: Value, chain: Text, address: Text, exit: Text,
      pnl: real, fees: real, buy: real, sell: real)
    requires TokenIs(Field(entry, Ascii("token")), chain, address) && address != [] && env.chain(chain).Some?
    requires MoneyIs(env, Field(entry, Ascii("cycle")), pnl, fees, buy, sell)
    requires Field(Field(entry, Ascii("cycle")), Ascii("exitDate")) == Str(exit) && env.parseDate(exit).Some?
    ensures ReadListed(env, w, entry) ==
      if w.from <= env.parseDate(exit).value <= w.to then
        Some(Listed(env.chain(chain).value + Ascii("|") + env.lower(address), address, env.chain(chain).value,
                    buy + sell))
      else None
  {
    hide Field, MoneyIs, TokenIs, AmountOf, ChainOf;
    MoneyRead(env, Field(entry, K_CYCLE), pnl, fees, buy, sell);
    TokenListed(env, Field(entry, K_TOKEN), chain, address);
    assert BarText();
  }

  lemma {:induction false} TokenListed(env: Env, t: Value, chain: Text, address: Text)
    requires TokenIs(t, chain, address)
    ensures TextOf(Field(t, K_ADDRESS)) == address && ChainOf(env, Field(t, K_CHAIN)) == env.chain(chain)
  {
    hide Field;
  }

  /** Busiest first, and by address among equals. */
  lemma {:induction false} RankedInOrder(before: (Text, Text) -> bool, ls: seq<Listed>, i: nat, j: nat)
    requires Collation(before) && i < j < |Ranked(before, ls)|
    ensures var a, b := Ranked(before, ls)[i], Ranked(before, ls)[j];
      a.volume >= b.volume && (a.volume == b.volume ==> !before(b.address, a.address))
  {
    BusierStrict(before);
    Sorting.SortSorted(Busier(before), Assets(ls));
    hide Assets, Collation;
    assert !Busier(before)(Ranked(before, ls)[j], Ranked(before, ls)[i]);
  }
}
