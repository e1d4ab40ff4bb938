/**
 The worker that finds the owners of coins (otaindexer/worker.go;
 database/coinv2.go, DBGetUnknownCoinsV21). Coins without an owner are read in batches
 above a cursor, tested against the assigned keys of their shard, and counted in the
 index of the key they belong to.
 */
module OtaWorker {
  import opened Types

  type Shard = nat
  type OtaKey = string
  type CoinId = nat

  /** The token a coin document is filed under: PRV, or the one confidential asset that hides all others. */
  datatype Kind = Prv | Asset

  /** A shard and a kind: each has its own coin indices, cursor and batches. */
  datatype Chan = Chan(shard: Shard, kind: Kind)

  datatype Coin = Coin(chan: Chan, index: nat, owner: Option<OtaKey>, realToken: string, isNft: bool)

  datatype CoinInfo = CoinInfo(start: nat, end: nat, total: nat, lastScanned: nat)

  /** One entry of a key's index. */
  datatype Slot = Slot(nft: bool, token: string)

  datatype Key = Key(ota: OtaKey, coinIndex: map<string, CoinInfo>, nftIndex: map<string, CoinInfo>)

  /** What testing a coin against a key it belongs to finds out. */
  datatype Match = Match(token: string, isNft: bool)

  /** The ownership test; fixed during one scan. */
  type Test = (Coin, OtaKey) -> Option<Match>

  type Coins = map<CoinId, Coin>

  type Keys = map<Shard, seq<Key>>

  type Cursors = map<Chan, nat>

  const LIMIT: nat := 10000

  const PRV: string := "PRV"

  const ASSET: string := "ASSET"

  function TokenOf(kind: Kind): string { if kind.Prv? then PRV else ASSET }

  function SlotOf(c: Coin): (slot: Slot)
    ensures slot.nft == c.isNft && slot.token == c.realToken
  {
    Slot(c.isNft, c.realToken)
  }

  /** NFTs have an index of their own. */
  function Entry(k: Key, slot: Slot): (e: Option<CoinInfo>)
    ensures slot.nft ==> if slot.token in k.nftIndex then e == Some(k.nftIndex[slot.token]) else e == None
    ensures !slot.nft ==> if slot.token in k.coinIndex then e == Some(k.coinIndex[slot.token]) else e == None
  {
    var index := if slot.nft then k.nftIndex else k.coinIndex;
    if slot.token in index then Some(index[slot.token]) else None
  }

  function LastOf(e: Option<CoinInfo>): nat {
    match e
    case None => 0
    case Some(info) => info.lastScanned
  }

  /** How far a key has been scanned; the entry of the kind's own token doubles as the cursor. */
  function Last(k: Key, kind: Kind): (c: nat)
    ensures kind.Prv? ==> c == if "PRV" in k.coinIndex then k.coinIndex["PRV"].lastScanned else 0
    ensures kind.Asset? ==> c == if "ASSET" in k.coinIndex then k.coinIndex["ASSET"].lastScanned else 0
  {
    LastOf(Entry(k, Slot(false, TokenOf(kind))))
  }

  function KeysOf(keys: Keys, s: Shard): seq<Key> { if s in keys then keys[s] else [] }

  /** An index is still to be read from cursor c; cursor 0 stands for nothing read. */
  predicate Above(c: nat, index: nat) { c == 0 || index > c }

  // ---------- reading a batch ----------

  predicate Eligible(coins: Coins, ch: Chan, c: nat, id: CoinId) {
    id in coins && coins[id].chan == ch && coins[id].owner.None? && Above(c, coins[id].index)
  }

  ghost predicate Distinct(ids: seq<CoinId>) {
    forall i, j :: 0 <= i < j < |ids| ==> ids[i] != ids[j]
  }

  ghost function InChan(coins: Coins, list: seq<CoinId>, ch: Chan): set<CoinId> {
    set id | id in list && id in coins && coins[id].chan == ch
  }

  /** A query's answer: the eligible coins of least index, LIMIT of them if there are so many. */
  ghost predicate IsBatch(coins: Coins, ch: Chan, c: nat, list: seq<CoinId>) {
    && Distinct(list) && |list| <= LIMIT
    && (forall id :: id in list ==> Eligible(coins, ch, c, id))
    && (forall id :: Eligible(coins, ch, c, id) && id !in list ==> |list| == LIMIT && Beyond(coins, list, ch, id))
  }

  ghost predicate Beyond(coins: Coins, list: seq<CoinId>, ch: Chan, id: CoinId)
    requires id in coins
  {
    forall b :: b in list && b in coins && coins[b].chan == ch ==> coins[b].index <= coins[id].index
  }

  /** The answers for all cursors, one after the other. */
  ghost predicate IsBatches(coins: Coins, cursors: Cursors, list: seq<CoinId>) {
    && Distinct(list)
    && (forall id :: id in list ==> id in coins && coins[id].chan in cursors && Eligible(coins, coins[id].chan, cursors[coins[id].chan], id))
    && (forall ch :: ch in cursors ==> |InChan(coins, list, ch)| <= LIMIT)
    && (forall ch, id :: ch in cursors && Eligible(coins, ch, cursors[ch], id) && id !in list ==>
          |InChan(coins, list, ch)| == LIMIT && Beyond(coins, list, ch, id))
  }

  lemma {:induction false} LeastExists(coins: Coins, s: set<CoinId>) returns (least: CoinId)
    requires s != {} && s <= coins.Keys
    ensures least in s && forall id :: id in s ==> coins[least].index <= coins[id].index
  {
    least :| least in s;
    if s != {least} {
      var other := LeastExists(coins, s - {least});
      if coins[other].index < coins[least].index {
        least := other;
      }
    }
  }

  lemma {:induction false} SetOf(list: seq<CoinId>, s: set<CoinId>)
    requires Distinct(list) && forall id :: id in s <==> id in list
    ensures |s| == |list|
  {
    if list != [] {
      var n := |list| - 1;
      assert forall id :: id in s - {list[n]} <==> id in list[..n];
      SetOf(list[..n], s - {list[n]});
      assert list[n] in s;
    } else {
      assert s == {};
    }
  }

  method QueryUnknown(coins: Coins, ch: Chan, c: nat) returns (list: seq<CoinId>)
    ensures IsBatch(coins, ch, c, list)
  {
    list := [];
    var rest := set id | id in coins && Eligible(coins, ch, c, id);
    while rest != {} && |list| < LIMIT
      invariant |list| <= LIMIT && Distinct(list)
      invariant forall id :: Eligible(coins, ch, c, id) <==> id in list || id in rest
      invariant forall id :: id in list ==> id !in rest
      invariant forall b, id :: b in list && id in rest ==> b in coins && id in coins && coins[b].index <= coins[id].index
    {
      assert rest <= coins.Keys;
      ghost var _ := LeastExists(coins, rest);
      var least :| least in rest && forall id :: id in rest ==> coins[least].index <= coins[id].index;
      rest := rest - {least};
      list := list + [least];
    }
  }

  method GetUnknownCoins(coins: Coins, cursors: Cursors) returns (list: seq<CoinId>)
    ensures IsBatches(coins, cursors, list)
  {
    list := [];
    var todo := cursors.Keys;
    ghost var read: Cursors := map[];
    while todo != {}
      invariant todo <= cursors.Keys
      invariant read == map ch | ch in cursors.Keys - todo :: cursors[ch]
      invariant IsBatches(coins, read, list)
    {
      var ch :| ch in todo;
      todo := todo - {ch};
      var batch := QueryUnknown(coins, ch, cursors[ch]);
      BatchAppended(coins, read, list, ch, cursors[ch], batch);
      list := list + batch;
      read := read[ch := cursors[ch]];
    }
    assert read == cursors;
  }

  lemma DistinctConcat(a: seq<CoinId>, b: seq<CoinId>)
    requires Distinct(a) && Distinct(b) && forall x, y :: x in a && y in b ==> x != y
    ensures Distinct(a + b)
  {
    forall i, j | 0 <= i < j < |a + b| ensures (a + b)[i] != (a + b)[j] {
      if i < |a| <= j {
        assert a[i] in a && b[j - |a|] in b;
      }
    }
  }

  lemma BatchAppended(coins: Coins, read: Cursors, list: seq<CoinId>, ch: Chan, c: nat, batch: seq<CoinId>)
    requires IsBatches(coins, read, list) && ch !in read && IsBatch(coins, ch, c, batch)
    ensures IsBatches(coins, read[ch := c], list + batch)
  {
    var after, all := read[ch := c], list + batch;
    assert forall id :: id in list ==> coins[id].chan != ch;
    assert InChan(coins, all, ch) == set id | id in batch;
    SetOf(batch, InChan(coins, all, ch));
    forall o | o in read ensures InChan(coins, all, o) == InChan(coins, list, o) && |InChan(coins, all, o)| <= LIMIT {
    }
    DistinctConcat(list, batch);
    assert forall id :: id in all ==> id in coins && coins[id].chan in after && Eligible(coins, coins[id].chan, after[coins[id].chan], id);
    assert forall o :: o in after ==> |InChan(coins, all, o)| <= LIMIT;
    forall o, id | o in after && Eligible(coins, o, after[o], id) && id !in all
      ensures |InChan(coins, all, o)| == LIMIT && Beyond(coins, all, o, id)
    {
      if o == ch {
        assert Beyond(coins, batch, ch, id);
      } else {
        assert Beyond(coins, list, o, id);
      }
    }
  }

  // ---------- testing a batch against the keys ----------

  /** A key that has been scanned further is not tested. */
  predicate Owns(k: Key, c: Coin, test: Test) { !(c.index < Last(k, c.chan.kind)) && test(c, k.ota).Some? }

  /** The first key, in the order of assignment, that the coin belongs to. */
  function FirstMatch(c: Coin, ks: seq<Key>, test: Test): (r: Option<nat>)
    ensures r.Some? ==> r.value < |ks| && Owns(ks[r.value], c, test) && forall i :: 0 <= i < r.value ==> !Owns(ks[i], c, test)
    ensures r.None? ==> forall i :: 0 <= i < |ks| ==> !Owns(ks[i], c, test)
  {
    if ks == [] then None else
    var n := |ks| - 1;
    match FirstMatch(c, ks[..n], test)
    case Some(i) => Some(i)
    case None => if Owns(ks[n], c, test) then Some(n) else None
  }

  /** The key has not been scanned beyond the coin, and the test gives the coin to it. */
  ghost predicate Accepts(k: Key, c: Coin, test: Test) {
    && test(c, k.ota).Some?
    && c.index >= if c.chan.kind.Prv? then (if "PRV" in k.coinIndex then k.coinIndex["PRV"].lastScanned else 0)
                  else (if "ASSET" in k.coinIndex then k.coinIndex["ASSET"].lastScanned else 0)
  }

  /** The i-th key accepts the coin, and none before it does. */
  ghost predicate Takes(ks: seq<Key>, i: nat, c: Coin, test: Test) {
    i < |ks| && Accepts(ks[i], c, test) && forall j :: 0 <= j < i ==> !Accepts(ks[j], c, test)
  }

  /**
   The document of a coin given to a key: its owner, and the token and the NFT mark that
   the test found; an NFT keeps its token and its mark. All else is as it was.
   */
  ghost predicate GivenTo(c: Coin, c': Coin, ota: OtaKey, test: Test) {
    && test(c, ota).Some?
    && c'.owner == Some(ota) && c'.chan == c.chan && c'.index == c.index
    && (c.isNft ==> c'.isNft && c'.realToken == c.realToken)
    && (!c.isNft ==> c'.isNft == test(c, ota).value.isNft && c'.realToken == test(c, ota).value.token)
  }

  /** The document of a coin that a key owns. */
  function Tag(c: Coin, ota: OtaKey, m: Match): Coin {
    c.(owner := Some(ota), realToken := if c.isNft then c.realToken else m.token, isNft := c.isNft || m.isNft)
  }

  /** The document after testing: unchanged when no key owns the coin. */
  function Verdict(c: Coin, ks: seq<Key>, test: Test): Coin {
    match FirstMatch(c, ks, test)
    case None => c
    case Some(i) => Tag(c, ks[i].ota, test(c, ks[i].ota).value)
  }

  datatype Hit = Hit(id: CoinId, coin: Coin)

  /** The coins found, grouped by owner. */
  type Found = map<OtaKey, seq<Hit>>

  function HitsOf(found: Found, ota: OtaKey): seq<Hit> { if ota in found then found[ota] else [] }

  ghost predicate IsHit(coins: Coins, keys: Keys, list: seq<CoinId>, test: Test, ota: OtaKey, h: Hit) {
    h.id in list && h.id in coins && h.coin == Verdict(coins[h.id], KeysOf(keys, coins[h.id].chan.shard), test) && h.coin.owner == Some(ota)
  }

  ghost predicate DistinctHits(hits: seq<Hit>) {
    forall i, j :: 0 <= i < j < |hits| ==> hits[i].id != hits[j].id
  }

  /** Exactly the owned coins of the list, each once. */
  ghost predicate FoundIn(found: Found, coins: Coins, keys: Keys, list: seq<CoinId>, test: Test) {
    && (forall ota, h :: h in HitsOf(found, ota) <==> IsHit(coins, keys, list, test, ota, h))
    && (forall ota :: DistinctHits(HitsOf(found, ota)))
  }

  /** The greatest index of the list, for each channel in it. */
  ghost predicate IsNewCursors(new_: Cursors, coins: Coins, list: seq<CoinId>) {
    && (forall id :: id in list && id in coins ==> coins[id].chan in new_ && coins[id].index <= new_[coins[id].chan])
    && (forall ch :: ch in new_ ==> exists id :: id in list && id in coins && coins[id].chan == ch && coins[id].index == new_[ch])
  }

  /** Exactly the coins of the list that some key takes, each for the first such key. */
  ghost predicate AllGiven(found: Found, coins: Coins, keys: Keys, list: seq<CoinId>, test: Test) {
    && (forall ota, h :: h in HitsOf(found, ota) ==> GivenHit(coins, keys, list, test, ota, h))
    && (forall id, i: nat :: id in list && id in coins && Takes(KeysOf(keys, coins[id].chan.shard), i, coins[id], test) ==>
          exists h :: h in HitsOf(found, KeysOf(keys, coins[id].chan.shard)[i].ota) && h.id == id)
  }

  ghost predicate GivenHit(coins: Coins, keys: Keys, list: seq<CoinId>, test: Test, ota: OtaKey, h: Hit) {
    && h.id in list && h.id in coins && GivenTo(coins[h.id], h.coin, ota, test)
    && exists i: nat :: Takes(KeysOf(keys, coins[h.id].chan.shard), i, coins[h.id], test) && KeysOf(keys, coins[h.id].chan.shard)[i].ota == ota
  }

  lemma VerdictGives(c: Coin, ks: seq<Key>, test: Test)
    requires c.owner.None?
    ensures var r := FirstMatch(c, ks, test); r.Some? ==> Takes(ks, r.value, c, test) && GivenTo(c, Verdict(c, ks, test), ks[r.value].ota, test)
    ensures forall i: nat :: Takes(ks, i, c, test) ==> FirstMatch(c, ks, test) == Some(i)
    ensures FirstMatch(c, ks, test).None? ==> Verdict(c, ks, test) == c
  {
    assert forall k :: Owns(k, c, test) <==> Accepts(k, c, test);
    forall i: nat | Takes(ks, i, c, test) ensures FirstMatch(c, ks, test) == Some(i) {
      assert Owns(ks[i], c, test);
    }
  }

  lemma FoundIsGiven(found: Found, coins: Coins, keys: Keys, list: seq<CoinId>, test: Test)
    requires FoundIn(found, coins, keys, list, test)
    requires forall id :: id in list ==> id in coins && coins[id].owner.None?
    ensures AllGiven(found, coins, keys, list, test)
  {
    hide Accepts, GivenTo, FirstMatch, Verdict;
    forall ota, h | h in HitsOf(found, ota) ensures GivenHit(coins, keys, list, test, ota, h) {
      assert IsHit(coins, keys, list, test, ota, h);
      VerdictGives(coins[h.id], KeysOf(keys, coins[h.id].chan.shard), test);
      GivenOwner(coins[h.id], KeysOf(keys, coins[h.id].chan.shard), test);
    }
    forall id, i: nat | id in list && id in coins && Takes(KeysOf(keys, coins[id].chan.shard), i, coins[id], test)
      ensures exists h :: h in HitsOf(found, KeysOf(keys, coins[id].chan.shard)[i].ota) && h.id == id
    {
      var ks := KeysOf(keys, coins[id].chan.shard);
      VerdictGives(coins[id], ks, test);
      GivenOwner(coins[id], ks, test);
      assert IsHit(coins, keys, list, test, ks[i].ota, Hit(id, Verdict(coins[id], ks, test)));
      assert Hit(id, Verdict(coins[id], ks, test)) in HitsOf(found, ks[i].ota);
    }
  }

  lemma GivenOwner(c: Coin, ks: seq<Key>, test: Test)
    requires c.owner.None?
    ensures var r, v := FirstMatch(c, ks, test), Verdict(c, ks, test);
            if r.None? then v.owner.None? else r.value < |ks| && v.owner == Some(ks[r.value].ota)
    ensures forall i: nat :: Takes(ks, i, c, test) ==> i < |ks|
  {
  }

  method FindOwner(c: Coin, ks: seq<Key>, test: Test) returns (r: Option<nat>)
    ensures r == FirstMatch(c, ks, test)
  {
    var i := 0;
    while i < |ks|
      invariant 0 <= i <= |ks| && FirstMatch(c, ks[..i], test) == None
    {
      assert ks[..i + 1][..i] == ks[..i];
      if !(c.index < Last(ks[i], c.chan.kind)) {
        if test(c, ks[i].ota).Some? {
          MatchStays(c, ks, i + 1, test);
          return Some(i);
        }
      }
      i := i + 1;
    }
    assert ks[..i] == ks;
    return None;
  }

  lemma {:induction false} MatchStays(c: Coin, ks: seq<Key>, n: nat, test: Test)
    requires n <= |ks| && FirstMatch(c, ks[..n], test).Some?
    ensures FirstMatch(c, ks, test) == FirstMatch(c, ks[..n], test)
    decreases |ks| - n
  {
    if n < |ks| {
      assert ks[..n + 1][..n] == ks[..n];
      MatchStays(c, ks, n + 1, test);
    } else {
      assert ks[..n] == ks;
    }
  }

  method FilterCoins(coins: Coins, keys: Keys, list: seq<CoinId>, test: Test) returns (found: Found, new_: Cursors)
    requires Distinct(list) && forall id :: id in list ==> id in coins && coins[id].owner.None?
    ensures FoundIn(found, coins, keys, list, test)
    ensures AllGiven(found, coins, keys, list, test)
    ensures IsNewCursors(new_, coins, list)
  {
    hide FirstMatch, AllGiven;
    found, new_ := map[], map[];
    var i := 0;
    while i < |list|
      invariant 0 <= i <= |list|
      invariant FoundIn(found, coins, keys, list[..i], test)
      invariant IsNewCursors(new_, coins, list[..i])
    {
      assert list[i] in list;
      var c := coins[list[i]];
      var ks := KeysOf(keys, c.chan.shard);
      var r := FindOwner(c, ks, test);
      ghost var was := found;
      if r.Some? {
        var ota := ks[r.value].ota;
        var hit := Hit(list[i], Tag(c, ota, test(c, ota).value));
        found := found[ota := HitsOf(found, ota) + [hit]];
      }
      FoundNext(was, found, coins, keys, list, i, test);
      CursorNext(new_, coins, list, i);
      if c.chan !in new_ || c.index > new_[c.chan] {
        new_ := new_[c.chan := c.index];
      }
      i := i + 1;
    }
    assert list[..i] == list;
    FoundIsGiven(found, coins, keys, list, test);
  }

  lemma FoundNext(was: Found, now: Found, coins: Coins, keys: Keys, list: seq<CoinId>, i: nat, test: Test)
    requires i < |list| && Distinct(list) && list[i] in coins && coins[list[i]].owner.None?
    requires FoundIn(was, coins, keys, list[..i], test)
    requires var c := coins[list[i]]; var v := Verdict(c, KeysOf(keys, c.chan.shard), test);
             now == match v.owner case None => was case Some(ota) => was[ota := HitsOf(was, ota) + [Hit(list[i], v)]]
    ensures FoundIn(now, coins, keys, list[..i + 1], test)
  {
    hide Verdict;
    var before, after := list[..i], list[..i + 1];
    assert after == before + [list[i]];
    assert list[i] !in before;
    forall ota, h ensures h in HitsOf(now, ota) <==> IsHit(coins, keys, after, test, ota, h) {
      assert h in HitsOf(was, ota) <==> IsHit(coins, keys, before, test, ota, h);
    }
    forall ota ensures DistinctHits(HitsOf(now, ota)) {
      var hits := HitsOf(was, ota);
      forall j | 0 <= j < |hits| ensures hits[j].id != list[i] {
        assert IsHit(coins, keys, before, test, ota, hits[j]);
      }
    }
  }

  lemma CursorNext(new_: Cursors, coins: Coins, list: seq<CoinId>, i: nat)
    requires i < |list| && list[i] in coins && IsNewCursors(new_, coins, list[..i])
    ensures var c := coins[list[i]];
            IsNewCursors(if c.chan !in new_ || c.index > new_[c.chan] then new_[c.chan := c.index] else new_, coins, list[..i + 1])
  {
    var c := coins[list[i]];
    var next := if c.chan !in new_ || c.index > new_[c.chan] then new_[c.chan := c.index] else new_;
    var before, after := list[..i], list[..i + 1];
    assert after == before + [list[i]];
    forall ch | ch in next
      ensures exists id :: id in after && id in coins && coins[id].chan == ch && coins[id].index == next[ch]
    {
      if ch == c.chan && next != new_ {
        assert list[i] in after;
      } else {
        var id :| id in before && id in coins && coins[id].chan == ch && coins[id].index == new_[ch];
        assert id in after;
      }
    }
  }

  // ---------- counting coins in a key's index ----------

  /** An entry after one more coin; an entry with no coins yet may exist for its cursor. */
  function Counted(e: Option<CoinInfo>, index: nat): CoinInfo {
    match e
    case None => CoinInfo(index, index, 1, 0)
    case Some(info) =>
      var d := if info.total == 0 then info.(start := index, end := index) else info;
      d.(start := if d.start > index then index else d.start, end := if d.end < index then index else d.end, total := d.total + 1)
  }

  /** An entry after the coins of its slot. */
  function CountIn(e: Option<CoinInfo>, hits: seq<Hit>, slot: Slot): Option<CoinInfo> {
    if hits == [] then e else
    var last := hits[|hits| - 1];
    var before := CountIn(e, hits[..|hits| - 1], slot);
    if SlotOf(last.coin) == slot then Some(Counted(before, last.coin.index)) else before
  }

  /** The cursor in an entry never goes back. */
  function Raise(e: Option<CoinInfo>, c: nat): Option<CoinInfo> {
    match e
    case None => Some(CoinInfo(0, 0, 0, c))
    case Some(info) => Some(if info.lastScanned < c then info.(lastScanned := c) else info)
  }

  function Cur(cursors: Cursors, ch: Chan): nat { if ch in cursors then cursors[ch] else 0 }

  function Raised(e: Option<CoinInfo>, slot: Slot, s: Shard, cursors: Cursors): Option<CoinInfo> {
    if slot == Slot(false, PRV) then Raise(e, Cur(cursors, Chan(s, Prv)))
    else if slot == Slot(false, ASSET) then Raise(e, Cur(cursors, Chan(s, Asset)))
    else e
  }

  ghost predicate KeyUpdated(k: Key, k': Key, s: Shard, found: Found, cursors: Cursors) {
    && k'.ota == k.ota
    && forall slot :: Entry(k', slot) == Raised(CountIn(Entry(k, slot), HitsOf(found, k.ota), slot), slot, s, cursors)
  }

  ghost predicate KeysUpdated(keys: Keys, keys': Keys, found: Found, cursors: Cursors) {
    && keys'.Keys == keys.Keys
    && forall s :: s in keys ==> KeyListUpdated(keys[s], keys'[s], s, found, cursors)
  }

  ghost predicate KeyListUpdated(ks: seq<Key>, ks': seq<Key>, s: Shard, found: Found, cursors: Cursors) {
    |ks'| == |ks| && forall i :: 0 <= i < |ks| ==> KeyUpdated(ks[i], ks'[i], s, found, cursors)
  }

  method CountHits(k: Key, hits: seq<Hit>) returns (k': Key)
    ensures k'.ota == k.ota
    ensures forall slot :: Entry(k', slot) == CountIn(Entry(k, slot), hits, slot)
  {
    k' := k;
    var i := 0;
    while i < |hits|
      invariant 0 <= i <= |hits| && k'.ota == k.ota
      invariant forall slot :: Entry(k', slot) == CountIn(Entry(k, slot), hits[..i], slot)
    {
      var c := hits[i].coin;
      assert hits[..i + 1][..i] == hits[..i];
      if !c.isNft {
        k' := k'.(coinIndex := k'.coinIndex[c.realToken := Counted(Entry(k', SlotOf(c)), c.index)]);
      } else {
        k' := k'.(nftIndex := k'.nftIndex[c.realToken := Counted(Entry(k', SlotOf(c)), c.index)]);
      }
      i := i + 1;
    }
    assert hits[..i] == hits;
  }

  method RaiseCursors(k: Key, s: Shard, cursors: Cursors) returns (k': Key)
    ensures k'.ota == k.ota
    ensures forall slot :: Entry(k', slot) == Raised(Entry(k, slot), slot, s, cursors)
  {
    k' := k;
    var c := Cur(cursors, Chan(s, Prv));
    if PRV in k'.coinIndex {
      if k'.coinIndex[PRV].lastScanned < c {
        k' := k'.(coinIndex := k'.coinIndex[PRV := k'.coinIndex[PRV].(lastScanned := c)]);
      }
    } else {
      k' := k'.(coinIndex := k'.coinIndex[PRV := CoinInfo(0, 0, 0, c)]);
    }
    c := Cur(cursors, Chan(s, Asset));
    if ASSET in k'.coinIndex {
      if k'.coinIndex[ASSET].lastScanned < c {
        k' := k'.(coinIndex := k'.coinIndex[ASSET := k'.coinIndex[ASSET].(lastScanned := c)]);
      }
    } else {
      k' := k'.(coinIndex := k'.coinIndex[ASSET := CoinInfo(0, 0, 0, c)]);
    }
  }

  method UpdateKeys(keys: Keys, found: Found, cursors: Cursors) returns (keys': Keys)
    ensures KeysUpdated(keys, keys', found, cursors)
  {
    hide CountIn, Raised, Entry;
    keys' := map[];
    var todo := keys.Keys;
    while todo != {}
      invariant todo <= keys.Keys && keys'.Keys == keys.Keys - todo
      invariant forall s :: s in keys' ==> KeyListUpdated(keys[s], keys'[s], s, found, cursors)
    {
      var s :| s in todo;
      todo := todo - {s};
      var ks: seq<Key> := [];
      while |ks| < |keys[s]|
        invariant |ks| <= |keys[s]|
        invariant forall i :: 0 <= i < |ks| ==> KeyUpdated(keys[s][i], ks[i], s, found, cursors)
      {
        var k := keys[s][|ks|];
        var counted := CountHits(k, HitsOf(found, k.ota));
        var k' := RaiseCursors(counted, s, cursors);
        ks := ks + [k'];
      }
      keys' := keys'[s := ks];
    }
  }

  // ---------- the index is a recount ----------

  /** The coins of a slot of a key. */
  ghost function Mine(coins: Coins, ota: OtaKey, slot: Slot): set<CoinId> {
    set id | id in coins && coins[id].owner == Some(ota) && coins[id].isNft == slot.nft && coins[id].realToken == slot.token
  }

  /** An entry counts the coins of s, and knows their least and greatest index. */
  ghost predicate Tally(e: Option<CoinInfo>, coins: Coins, s: set<CoinId>) {
    match e
    case None => s == {}
    case Some(info) =>
      && info.total == |s|
      && (s != {} ==> HasIndex(coins, s, info.start) && HasIndex(coins, s, info.end))
      && (forall id :: id in s && id in coins ==> info.start <= coins[id].index <= info.end)
  }

  ghost predicate HasIndex(coins: Coins, s: set<CoinId>, index: nat) {
    exists id :: id in s && id in coins && coins[id].index == index
  }

  ghost predicate Recounted(coins: Coins, k: Key) {
    forall slot :: Tally(Entry(k, slot), coins, Mine(coins, k.ota, slot))
  }

  lemma CountedTally(e: Option<CoinInfo>, coins: Coins, s: set<CoinId>, id: CoinId)
    requires Tally(e, coins, s) && s <= coins.Keys && id in coins && id !in s
    ensures Tally(Some(Counted(e, coins[id].index)), coins, s + {id})
  {
    var index, all := coins[id].index, s + {id};
    assert id in all;
    if s != {} {
      var info := e.value;
      var low :| low in s && low in coins && coins[low].index == info.start;
      var high :| high in s && high in coins && coins[high].index == info.end;
      assert low in all && high in all;
    }
  }

  ghost function IdsIn(hits: seq<Hit>, slot: Slot): set<CoinId> {
    set h | h in hits && SlotOf(h.coin) == slot :: h.id
  }

  /** Counting distinct coins not counted before gives the recount of all of them. */
  lemma {:induction false} CountInTally(e: Option<CoinInfo>, coins: Coins, s: set<CoinId>, hits: seq<Hit>, slot: Slot)
    requires Tally(e, coins, s) && s <= coins.Keys
    requires DistinctHits(hits)
    requires forall h :: h in hits ==> h.id in coins && h.id !in s && coins[h.id].index == h.coin.index
    ensures Tally(CountIn(e, hits, slot), coins, s + IdsIn(hits, slot))
  {
    hide Tally, Counted;
    if hits == [] {
      assert s + IdsIn(hits, slot) == s;
    } else {
      var n := |hits| - 1;
      var init, last := hits[..n], hits[n];
      assert hits == init + [last];
      assert last in hits;
      CountInTally(e, coins, s, init, slot);
      if SlotOf(last.coin) == slot {
        assert s + IdsIn(hits, slot) == s + IdsIn(init, slot) + {last.id};
        CountedTally(CountIn(e, init, slot), coins, s + IdsIn(init, slot), last.id);
      } else {
        assert IdsIn(hits, slot) == IdsIn(init, slot);
      }
    }
  }

  lemma {:induction false} CountKeepsCursor(e: Option<CoinInfo>, hits: seq<Hit>, slot: Slot)
    ensures LastOf(CountIn(e, hits, slot)) == LastOf(e)
  {
    if hits != [] {
      CountKeepsCursor(e, hits[..|hits| - 1], slot);
    }
  }

  /** The collection after the owned coins of the list are written. */
  ghost function Written(coins: Coins, keys: Keys, list: seq<CoinId>, test: Test): Coins {
    map id | id in coins :: if id in list then Verdict(coins[id], KeysOf(keys, coins[id].chan.shard), test) else coins[id]
  }

  method CoinsToUpdate(found: Found) returns (hits: seq<Hit>)
    ensures forall h :: h in hits <==> exists ota :: h in HitsOf(found, ota)
  {
    hits := [];
    var todo := found.Keys;
    while todo != {}
      invariant todo <= found.Keys
      invariant forall h :: h in hits <==> exists ota :: ota !in todo && h in HitsOf(found, ota)
    {
      var ota :| ota in todo;
      todo := todo - {ota};
      assert HitsOf(found, ota) == found[ota];
      hits := hits + found[ota];
    }
  }

  method UpdateCoins(coins: Coins, hits: seq<Hit>) returns (coins': Coins)
    requires forall h :: h in hits ==> h.id in coins
    requires forall g, h :: g in hits && h in hits && g.id == h.id ==> g == h
    ensures coins'.Keys == coins.Keys
    ensures forall h :: h in hits ==> coins'[h.id] == h.coin
    ensures forall id :: id in coins && (forall h :: h in hits ==> h.id != id) ==> coins'[id] == coins[id]
  {
    coins' := coins;
    var i := 0;
    while i < |hits|
      invariant 0 <= i <= |hits| && coins'.Keys == coins.Keys
      invariant forall j :: 0 <= j < i ==> coins'[hits[j].id] == hits[j].coin
      invariant forall id :: id in coins && (forall h :: h in hits ==> h.id != id) ==> coins'[id] == coins[id]
    {
      assert hits[i] in hits;
      coins' := coins'[hits[i].id := hits[i].coin];
      i := i + 1;
    }
  }

  /** Writing the coins found writes exactly the verdicts of the list. */
  lemma HitsAreVerdicts(coins: Coins, coins': Coins, found: Found, hits: seq<Hit>, keys: Keys, list: seq<CoinId>, test: Test)
    requires FoundIn(found, coins, keys, list, test)
    requires forall id :: id in list ==> id in coins && coins[id].owner.None?
    requires forall h :: h in hits <==> exists ota :: h in HitsOf(found, ota)
    requires coins'.Keys == coins.Keys
    requires forall h :: h in hits && h.id in coins ==> coins'[h.id] == h.coin
    requires forall id :: id in coins && (forall h :: h in hits ==> h.id != id) ==> coins'[id] == coins[id]
    ensures coins' == Written(coins, keys, list, test)
  {
    hide Verdict;
    forall id | id in coins ensures coins'[id] == Written(coins, keys, list, test)[id] {
      var v := Verdict(coins[id], KeysOf(keys, coins[id].chan.shard), test);
      if id in list && v.owner.Some? {
        assert IsHit(coins, keys, list, test, v.owner.value, Hit(id, v));
        assert Hit(id, v) in HitsOf(found, v.owner.value);
        assert coins'[Hit(id, v).id] == v;
      } else {
        forall h | h in hits ensures h.id != id {
          var ota :| h in HitsOf(found, ota);
          assert IsHit(coins, keys, list, test, ota, h);
        }
        if id in list {
          VerdictUnowned(coins[id], KeysOf(keys, coins[id].chan.shard), test);
        }
      }
    }
  }

  lemma VerdictUnowned(c: Coin, ks: seq<Key>, test: Test)
    requires c.owner.None? && Verdict(c, ks, test).owner.None?
    ensures Verdict(c, ks, test) == c
  {
  }

  lemma VerdictKeeps(c: Coin, ks: seq<Key>, test: Test)
    ensures var v := Verdict(c, ks, test); v.chan == c.chan && v.index == c.index
  {
  }

  lemma TallySame(e: Option<CoinInfo>, coins: Coins, coins': Coins, s: set<CoinId>)
    requires Tally(e, coins, s) && s <= coins.Keys
    requires forall id :: id in coins ==> id in coins' && coins'[id].index == coins[id].index
    ensures Tally(e, coins', s)
  {
    if e.Some? && s != {} {
      var low :| low in s && low in coins && coins[low].index == e.value.start;
      var high :| high in s && high in coins && coins[high].index == e.value.end;
      assert coins'[low].index == e.value.start && coins'[high].index == e.value.end;
    }
  }

  lemma RaisedTally(e: Option<CoinInfo>, coins: Coins, s: set<CoinId>, slot: Slot, shard: Shard, cursors: Cursors)
    requires Tally(e, coins, s)
    ensures Tally(Raised(e, slot, shard, cursors), coins, s)
  {
  }

  /** After a batch, the index of every key still is a recount of the collection. */
  lemma RecountKept(coins: Coins, k: Key, k': Key, s: Shard, found: Found, cursors: Cursors, keys: Keys, list: seq<CoinId>, test: Test)
    requires Recounted(coins, k) && KeyUpdated(k, k', s, found, cursors)
    requires FoundIn(found, coins, keys, list, test)
    requires forall id :: id in list ==> id in coins && coins[id].owner.None?
    ensures Recounted(Written(coins, keys, list, test), k')
  {
    hide Verdict, Tally, Raised, CountIn;
    var coins' := Written(coins, keys, list, test);
    var hits := HitsOf(found, k.ota);
    forall id | id in coins ensures coins'[id].index == coins[id].index {
      VerdictKeeps(coins[id], KeysOf(keys, coins[id].chan.shard), test);
    }
    forall h | h in hits ensures h.id in coins && coins[h.id].owner.None? && coins'[h.id] == h.coin && h.coin.owner == Some(k.ota) {
      assert IsHit(coins, keys, list, test, k.ota, h);
    }
    forall slot ensures Tally(Entry(k', slot), coins', Mine(coins', k.ota, slot)) {
      var mine := Mine(coins, k.ota, slot);
      MineGrows(coins, coins', k.ota, slot, found, keys, list, test);
      TallySame(Entry(k, slot), coins, coins', mine);
      CountInTally(Entry(k, slot), coins', mine, hits, slot);
      RaisedTally(CountIn(Entry(k, slot), hits, slot), coins', mine + IdsIn(hits, slot), slot, s, cursors);
    }
  }

  /**
   Coins are written before keys are. If the worker stops in between, with any of the
   batch's coins written, a key as it was stored before still is a recount exactly when none
   of the coins written was found for it; those coins have an owner and are not read again.
   */
  lemma StoppedBetweenWrites(coins: Coins, k: Key, keys: Keys, written: seq<CoinId>, test: Test)
    requires Recounted(coins, k)
    requires forall id :: id in written ==> id in coins && coins[id].owner.None?
    ensures var coins' := Written(coins, keys, written, test);
            Recounted(coins', k) <==> forall id :: id in written ==> coins'[id].owner != Some(k.ota)
  {
    hide Verdict, Tally;
    var coins' := Written(coins, keys, written, test);
    forall id | id in coins ensures coins'[id].index == coins[id].index {
      VerdictKeeps(coins[id], KeysOf(keys, coins[id].chan.shard), test);
    }
    if id :| id in written && coins'[id].owner == Some(k.ota) {
      var slot := SlotOf(coins'[id]);
      MoreThanCounted(Entry(k, slot), coins, coins', Mine(coins, k.ota, slot), Mine(coins', k.ota, slot), id);
    } else {
      forall slot ensures Tally(Entry(k, slot), coins', Mine(coins', k.ota, slot)) {
        assert Mine(coins', k.ota, slot) == Mine(coins, k.ota, slot);
        TallySame(Entry(k, slot), coins, coins', Mine(coins, k.ota, slot));
      }
    }
  }

  lemma MoreThanCounted(e: Option<CoinInfo>, coins: Coins, coins': Coins, s: set<CoinId>, t: set<CoinId>, id: CoinId)
    requires Tally(e, coins, s) && s <= t && id in t && id !in s
    ensures !Tally(e, coins', t)
  {
    SubsetSize(s, t);
  }

  lemma MineGrows(coins: Coins, coins': Coins, ota: OtaKey, slot: Slot, found: Found, keys: Keys, list: seq<CoinId>, test: Test)
    requires FoundIn(found, coins, keys, list, test)
    requires forall id :: id in list ==> id in coins && coins[id].owner.None?
    requires coins' == Written(coins, keys, list, test)
    ensures Mine(coins', ota, slot) == Mine(coins, ota, slot) + IdsIn(HitsOf(found, ota), slot)
  {
    hide Verdict;
    var hits := HitsOf(found, ota);
    forall id ensures id in Mine(coins', ota, slot) <==> id in Mine(coins, ota, slot) || id in IdsIn(hits, slot) {
      if id in Mine(coins', ota, slot) && id in list {
        assert IsHit(coins, keys, list, test, ota, Hit(id, coins'[id]));
        assert Hit(id, coins'[id]) in hits;
      }
      if id in IdsIn(hits, slot) {
        var h :| h in hits && SlotOf(h.coin) == slot && h.id == id;
        assert IsHit(coins, keys, list, test, ota, h);
      }
    }
  }

  lemma LastRaised(k: Key, k': Key, s: Shard, found: Found, cursors: Cursors, kind: Kind)
    requires KeyUpdated(k, k', s, found, cursors)
    ensures var c := Cur(cursors, Chan(s, kind)); Last(k', kind) == if Last(k, kind) < c then c else Last(k, kind)
  {
    var slot := Slot(false, TokenOf(kind));
    assert PRV != ASSET by {
      assert |PRV| == 3 && |ASSET| == 5;
    }
    CountKeepsCursor(Entry(k, slot), HitsOf(found, k.ota), slot);
  }

  // ---------- completeness ----------

  /** Coins of the channel have distinct indices, apart from index 0, which burnt coins share. */
  ghost predicate IndicesDistinct(coins: Coins, ch: Chan) {
    forall a, b :: a in coins && b in coins && coins[a].chan == coins[b].chan == ch && coins[a].index == coins[b].index > 0 ==> a == b
  }

  ghost function AtZero(coins: Coins, ch: Chan): set<CoinId> {
    set id | id in coins && coins[id].chan == ch && coins[id].owner.None? && coins[id].index == 0
  }

  /** The coins of index 0 without an owner do not fill a batch, or are not read at all. */
  ghost predicate FewAtZero(coins: Coins, cursors: Cursors, ch: Chan) {
    |AtZero(coins, ch)| < LIMIT || ch !in cursors || cursors[ch] > 0
  }

  /** A coin of the channel that the i-th key of its shard had to be tested against. */
  ghost predicate Due(coins: Coins, keys0: Keys, ch: Chan, i: nat, id: CoinId) {
    && ch.shard in keys0 && i < |keys0[ch.shard]|
    && id in coins && coins[id].chan == ch && coins[id].owner.None?
    && Above(Last(keys0[ch.shard][i], ch.kind), coins[id].index)
  }

  ghost predicate StillToRead(coins: Coins, cursors: Cursors, id: CoinId)
    requires id in coins
  {
    coins[id].chan in cursors && Above(cursors[coins[id].chan], coins[id].index)
  }

  /**
   Every coin of the channel that a key had to be tested against at the start of the scan
   and that still has no owner has been tested against that key without success, or is
   still to be read.
   */
  ghost predicate Covered(coins: Coins, keys0: Keys, cursors: Cursors, test: Test, ch: Chan) {
    forall i: nat, id :: Due(coins, keys0, ch, i, id) ==> test(coins[id], keys0[ch.shard][i].ota).None? || StillToRead(coins, cursors, id)
  }

  /** Nothing is left: every coin due for a key that has no owner does not belong to that key. */
  ghost predicate Complete(coins: Coins, keys0: Keys, test: Test, ch: Chan) {
    forall i: nat, id :: Due(coins, keys0, ch, i, id) ==> test(coins[id], keys0[ch.shard][i].ota).None?
  }

  /** The keys during a scan: those at its start, their cursors only raised by what has been read. */
  ghost predicate Advanced(keys0: Keys, keys: Keys, cursors: Cursors) {
    && keys.Keys == keys0.Keys
    && (forall ch :: ch in cursors ==> ch.shard in keys0)
    && forall s :: s in keys0 ==> KeyListAdvanced(keys0[s], keys[s], s, cursors)
  }

  ghost predicate KeyListAdvanced(ks0: seq<Key>, ks: seq<Key>, s: Shard, cursors: Cursors) {
    |ks| == |ks0| && forall i :: 0 <= i < |ks| ==> KeyAdvanced(ks0[i], ks[i], s, cursors)
  }

  ghost predicate KeyAdvanced(k0: Key, k: Key, s: Shard, cursors: Cursors) {
    && k.ota == k0.ota
    && forall kind :: Chan(s, kind) in cursors ==> Last(k, kind) <= Last(k0, kind) || Last(k, kind) <= cursors[Chan(s, kind)]
  }

  /** A coin read but not assigned does not belong to any key it was due for. */
  lemma ReadIsTested(coins: Coins, keys0: Keys, keys: Keys, cursors: Cursors, list: seq<CoinId>, test: Test, ch: Chan, i: nat, id: CoinId)
    requires IsBatches(coins, cursors, list) && Advanced(keys0, keys, cursors)
    requires Due(coins, keys0, ch, i, id) && id in list
    requires Verdict(coins[id], KeysOf(keys, ch.shard), test).owner.None?
    ensures test(coins[id], keys0[ch.shard][i].ota).None?
  {
    var s := ch.shard;
    assert KeyListAdvanced(keys0[s], keys[s], s, cursors);
    assert KeyAdvanced(keys0[s][i], keys[s][i], s, cursors);
    assert ch == Chan(s, ch.kind);
    assert !Owns(keys[s][i], coins[id], test);
  }

  lemma LeftOut(coins: Coins, cursors: Cursors, list: seq<CoinId>, ch: Chan, id: CoinId)
    requires IsBatches(coins, cursors, list)
    requires ch in cursors && Eligible(coins, ch, cursors[ch], id) && id !in list
    ensures |InChan(coins, list, ch)| == LIMIT && Beyond(coins, list, ch, id)
  {
  }

  /** What a batch leaves out is above the new cursor. */
  lemma UnreadIsAhead(coins: Coins, cursors: Cursors, list: seq<CoinId>, new_: Cursors, id: CoinId)
    requires id in coins && coins[id].owner.None? && StillToRead(coins, cursors, id) && id !in list
    ensures IsBatches(coins, cursors, list) && IsNewCursors(new_, coins, list)
         && IndicesDistinct(coins, coins[id].chan) && FewAtZero(coins, cursors, coins[id].chan)
         ==> StillToRead(coins, new_, id) && !NoneHigher(cursors, new_)
  {
    if IsBatches(coins, cursors, list) && IsNewCursors(new_, coins, list)
      && IndicesDistinct(coins, coins[id].chan) && FewAtZero(coins, cursors, coins[id].chan)
    {
      hide IsBatches;
      var ch := coins[id].chan;
      LeftOut(coins, cursors, list, ch, id);
      BatchUnowned(coins, cursors, list);
      var read := InChan(coins, list, ch);
      assert read != {};
      var some: CoinId :| some in read;
      assert ch in new_;
      if new_[ch] == 0 {
        assert read <= AtZero(coins, ch);
        SubsetSize(read, AtZero(coins, ch));
        assert false;
      }
      var top :| top in list && top in coins && coins[top].chan == ch && coins[top].index == new_[ch];
      assert coins[top].index <= coins[id].index;
    }
  }

  lemma {:induction false} SubsetSize<T>(a: set<T>, b: set<T>)
    requires a <= b
    ensures |a| <= |b|
    ensures a != b ==> |a| < |b|
  {
    if a != {} {
      var x :| x in a;
      SubsetSize(a - {x}, b - {x});
      assert a != b ==> a - {x} != b - {x} by {
        if a - {x} == b - {x} {
          assert a == a - {x} + {x} == b;
        }
      }
    }
  }

  lemma WrittenAt(coins: Coins, keys: Keys, list: seq<CoinId>, test: Test, id: CoinId)
    requires id in coins && (id in list ==> coins[id].owner.None?)
    ensures var c, c' := coins[id], Written(coins, keys, list, test)[id];
            && c'.chan == c.chan && c'.index == c.index
            && (c'.owner.None? ==> c' == c)
            && (id in list && c'.owner.None? ==> Verdict(c, KeysOf(keys, c.chan.shard), test).owner.None?)
  {
  }

  ghost predicate NoneHigher(cursors: Cursors, new_: Cursors) {
    forall ch :: ch in new_ && ch in cursors ==> new_[ch] <= cursors[ch]
  }

  lemma CoveredKept(coins: Coins, keys0: Keys, keys: Keys, cursors: Cursors, list: seq<CoinId>, new_: Cursors, test: Test, ch: Chan)
    requires IndicesDistinct(coins, ch) && FewAtZero(coins, cursors, ch)
    requires IsBatches(coins, cursors, list) && IsNewCursors(new_, coins, list)
    requires Advanced(keys0, keys, cursors) && Covered(coins, keys0, cursors, test, ch)
    ensures Covered(Written(coins, keys, list, test), keys0, new_, test, ch)
    ensures NoneHigher(cursors, new_) ==> Complete(Written(coins, keys, list, test), keys0, test, ch)
  {
    hide Written, IsBatches, IndicesDistinct, FewAtZero, IsNewCursors, Verdict, Above, Last;
    var coins' := Written(coins, keys, list, test);
    WrittenKeys(coins, keys, list, test);
    forall i: nat, id | Due(coins', keys0, ch, i, id) && test(coins'[id], keys0[ch.shard][i].ota).Some?
      ensures StillToRead(coins', new_, id) && !NoneHigher(cursors, new_)
    {
      BatchUnowned(coins, cursors, list);
      WrittenAt(coins, keys, list, test, id);
      assert Due(coins, keys0, ch, i, id);
      if id in list {
        ReadIsTested(coins, keys0, keys, cursors, list, test, ch, i, id);
        assert false;
      } else {
        UnreadIsAhead(coins, cursors, list, new_, id);
      }
    }
  }

  lemma WrittenKeys(coins: Coins, keys: Keys, list: seq<CoinId>, test: Test)
    ensures Written(coins, keys, list, test).Keys == coins.Keys
  {
  }

  lemma BatchUnowned(coins: Coins, cursors: Cursors, list: seq<CoinId>)
    requires IsBatches(coins, cursors, list)
    ensures forall id :: id in list ==> id in coins && coins[id].owner.None? && StillToRead(coins, cursors, id)
  {
  }

  lemma HypothesesKept(coins: Coins, keys: Keys, cursors: Cursors, list: seq<CoinId>, new_: Cursors, test: Test, ch: Chan)
    requires IndicesDistinct(coins, ch) && FewAtZero(coins, cursors, ch)
    requires forall id :: id in list ==> id in coins && coins[id].owner.None?
    requires ch in new_ ==> ch in cursors && cursors[ch] <= new_[ch]
    ensures IndicesDistinct(Written(coins, keys, list, test), ch) && FewAtZero(Written(coins, keys, list, test), new_, ch)
  {
    hide Written, Verdict;
    var coins' := Written(coins, keys, list, test);
    WrittenKeys(coins, keys, list, test);
    forall id | id in coins ensures coins'[id].chan == coins[id].chan && coins'[id].index == coins[id].index && (coins'[id].owner.None? ==> coins[id].owner.None?) {
      WrittenAt(coins, keys, list, test, id);
    }
    SubsetSize(AtZero(coins', ch), AtZero(coins, ch));
  }

  lemma NewCursorsAhead(coins: Coins, cursors: Cursors, list: seq<CoinId>, new_: Cursors)
    requires IsBatches(coins, cursors, list) && IsNewCursors(new_, coins, list)
    ensures forall ch :: ch in new_ ==> ch in cursors && cursors[ch] <= new_[ch]
  {
    forall ch | ch in new_ ensures ch in cursors && cursors[ch] <= new_[ch] {
      var id :| id in list && id in coins && coins[id].chan == ch && coins[id].index == new_[ch];
    }
  }

  lemma AdvancedKept(keys0: Keys, keys: Keys, keys': Keys, cursors: Cursors, new_: Cursors, found: Found)
    requires Advanced(keys0, keys, cursors) && KeysUpdated(keys, keys', found, new_)
    requires forall ch :: ch in new_ ==> ch in cursors && cursors[ch] <= new_[ch]
    ensures Advanced(keys0, keys', new_)
  {
    hide KeyAdvanced, KeyUpdated;
    forall s | s in keys0 ensures KeyListAdvanced(keys0[s], keys'[s], s, new_) {
      assert KeyListAdvanced(keys0[s], keys[s], s, cursors);
      assert KeyListUpdated(keys[s], keys'[s], s, found, new_);
      forall i | 0 <= i < |keys0[s]| ensures KeyAdvanced(keys0[s][i], keys'[s][i], s, new_) {
        KeyAdvancedKept(keys0[s][i], keys[s][i], keys'[s][i], s, cursors, new_, found);
      }
    }
  }

  lemma KeyAdvancedKept(k0: Key, k: Key, k': Key, s: Shard, cursors: Cursors, new_: Cursors, found: Found)
    requires KeyAdvanced(k0, k, s, cursors) && KeyUpdated(k, k', s, found, new_)
    requires forall ch :: ch in new_ ==> ch in cursors && cursors[ch] <= new_[ch]
    ensures KeyAdvanced(k0, k', s, new_)
  {
    hide Last;
    forall kind ensures Chan(s, kind) in new_ ==> Last(k', kind) <= Last(k0, kind) || Last(k', kind) <= new_[Chan(s, kind)] {
      LastRaised(k, k', s, found, new_, kind);
    }
  }

  // ---------- termination ----------

  /** The coins still to be read. */
  ghost function Pending(coins: Coins, cursors: Cursors): set<CoinId> {
    set id | id in coins && coins[id].owner.None? && StillToRead(coins, cursors, id)
  }

  /** A scan goes on only when a cursor moved, and then it has passed a coin. */
  lemma PendingShrinks(coins: Coins, keys: Keys, cursors: Cursors, list: seq<CoinId>, new_: Cursors, test: Test, ch: Chan)
    requires IsBatches(coins, cursors, list) && IsNewCursors(new_, coins, list)
    requires ch in new_ && (ch in cursors ==> new_[ch] != cursors[ch])
    ensures |Pending(Written(coins, keys, list, test), new_)| < |Pending(coins, cursors)|
  {
    hide Written, Verdict;
    NewCursorsAhead(coins, cursors, list, new_);
    BatchUnowned(coins, cursors, list);
    var coins' := Written(coins, keys, list, test);
    WrittenKeys(coins, keys, list, test);
    forall id | id in Pending(coins', new_) ensures id in Pending(coins, cursors) {
      WrittenAt(coins, keys, list, test, id);
    }
    var top :| top in list && top in coins && coins[top].chan == ch && coins[top].index == new_[ch];
    WrittenAt(coins, keys, list, test, top);
    assert top in Pending(coins, cursors) && top !in Pending(coins', new_);
    SubsetSize(Pending(coins', new_), Pending(coins, cursors));
  }

  // ---------- the scan ----------

  ghost predicate FoundBy(c: Coin, c': Coin, ks: seq<Key>, test: Test) {
    c.owner.None? && exists i :: 0 <= i < |ks| && GivenTo(c, c', ks[i].ota, test)
  }

  /** Coins only change by being given to a key of their shard that they belong to. */
  ghost predicate OnlyAssigned(coins0: Coins, coins: Coins, keys0: Keys, test: Test) {
    && coins.Keys == coins0.Keys
    && forall id :: id in coins0 ==> coins[id] == coins0[id] || FoundBy(coins0[id], coins[id], KeysOf(keys0, coins0[id].chan.shard), test)
  }

  /** The coins the test gave the key as coins, or as NFTs, of the token: an NFT's token is its own, any other coin's the one found. */
  ghost function Attributed(coins0: Coins, coins: Coins, ota: OtaKey, test: Test, nft: bool, token: string): set<CoinId> {
    set id | id in coins0 && id in coins && coins0[id].owner.None? && coins[id].owner == Some(ota)
             && (if coins0[id].isNft then nft && coins0[id].realToken == token
                 else test(coins0[id], ota).Some? && test(coins0[id], ota).value == Match(token, nft))
  }

  function TotalIn(index: map<string, CoinInfo>, token: string): nat { if token in index then index[token].total else 0 }

  /** A key's entry for a token has grown by exactly the number of coins the test attributed to that token. */
  ghost predicate Grows(coins0: Coins, coins: Coins, k0: Key, k: Key, test: Test) {
    && k.ota == k0.ota
    && (forall token :: TotalIn(k.coinIndex, token) == TotalIn(k0.coinIndex, token) + |Attributed(coins0, coins, k.ota, test, false, token)|)
    && (forall token :: TotalIn(k.nftIndex, token) == TotalIn(k0.nftIndex, token) + |Attributed(coins0, coins, k.ota, test, true, token)|)
  }

  lemma SlotGrows(coins0: Coins, coins: Coins, keys0: Keys, k0: Key, k: Key, test: Test, slot: Slot)
    requires OnlyAssigned(coins0, coins, keys0, test) && k.ota == k0.ota
    requires Tally(Entry(k0, slot), coins0, Mine(coins0, k.ota, slot)) && Tally(Entry(k, slot), coins, Mine(coins, k.ota, slot))
    ensures var before, after := Entry(k0, slot), Entry(k, slot);
      (if after.Some? then after.value.total else 0)
      == (if before.Some? then before.value.total else 0) + |Attributed(coins0, coins, k.ota, test, slot.nft, slot.token)|
  {
    var before, after := Mine(coins0, k.ota, slot), Mine(coins, k.ota, slot);
    var more := Attributed(coins0, coins, k.ota, test, slot.nft, slot.token);
    forall id ensures id in after <==> id in before || id in more {
      MineOrGiven(coins0, coins, keys0, k.ota, test, slot, id);
    }
    assert after == before + more && before !! more;
  }

  lemma MineOrGiven(coins0: Coins, coins: Coins, keys0: Keys, ota: OtaKey, test: Test, slot: Slot, id: CoinId)
    requires OnlyAssigned(coins0, coins, keys0, test)
    ensures id in Mine(coins, ota, slot) <==> id in Mine(coins0, ota, slot) || id in Attributed(coins0, coins, ota, test, slot.nft, slot.token)
  {
  }

  lemma IndexGrows(coins0: Coins, coins: Coins, keys0: Keys, k0: Key, k: Key, test: Test)
    requires OnlyAssigned(coins0, coins, keys0, test) && k.ota == k0.ota && Recounted(coins0, k0) && Recounted(coins, k)
    ensures Grows(coins0, coins, k0, k, test)
  {
    hide OnlyAssigned, Tally, Attributed, Mine;
    forall token
      ensures TotalIn(k.coinIndex, token) == TotalIn(k0.coinIndex, token) + |Attributed(coins0, coins, k.ota, test, false, token)|
      ensures TotalIn(k.nftIndex, token) == TotalIn(k0.nftIndex, token) + |Attributed(coins0, coins, k.ota, test, true, token)|
    {
      SlotGrows(coins0, coins, keys0, k0, k, test, Slot(false, token));
      SlotGrows(coins0, coins, keys0, k0, k, test, Slot(true, token));
    }
  }

  lemma AllIndicesGrow(coins0: Coins, coins: Coins, keys0: Keys, keys: Keys, test: Test)
    requires OnlyAssigned(coins0, coins, keys0, test) && Advanced(keys0, keys, map[])
    requires AllRecounted(coins0, keys0) && AllRecounted(coins, keys)
    ensures AllGrow(coins0, coins, keys0, keys, test)
  {
    hide OnlyAssigned, Recounted, Grows;
    forall s, i | s in keys0 && s in keys && 0 <= i < |keys0[s]| && i < |keys[s]| ensures Grows(coins0, coins, keys0[s][i], keys[s][i], test) {
      assert KeyListAdvanced(keys0[s], keys[s], s, map[]);
      assert KeyAdvanced(keys0[s][i], keys[s][i], s, map[]);
      IndexGrows(coins0, coins, keys0, keys0[s][i], keys[s][i], test);
    }
  }

  ghost predicate AllGrow(coins0: Coins, coins: Coins, keys0: Keys, keys: Keys, test: Test) {
    forall s, i :: s in keys0 && s in keys && 0 <= i < |keys0[s]| && i < |keys[s]| ==> Grows(coins0, coins, keys0[s][i], keys[s][i], test)
  }

  lemma OnlyAssignedKept(coins0: Coins, coins: Coins, keys0: Keys, keys: Keys, cursors: Cursors, list: seq<CoinId>, test: Test)
    requires OnlyAssigned(coins0, coins, keys0, test) && Advanced(keys0, keys, cursors)
    requires forall id :: id in list ==> id in coins && coins[id].owner.None?
    ensures OnlyAssigned(coins0, Written(coins, keys, list, test), keys0, test)
  {
    hide FirstMatch;
    var coins' := Written(coins, keys, list, test);
    forall id | id in coins0
      ensures coins'[id] == coins0[id] || FoundBy(coins0[id], coins'[id], KeysOf(keys0, coins0[id].chan.shard), test)
    {
      if id in list && coins'[id] != coins[id] {
        var s := coins[id].chan.shard;
        var r := FirstMatch(coins[id], KeysOf(keys, s), test);
        assert s in keys && KeyListAdvanced(keys0[s], keys[s], s, cursors);
        assert KeyAdvanced(keys0[s][r.value], keys[s][r.value], s, cursors);
        assert Owns(keys[s][r.value], coins[id], test) by { MatchOwns(coins[id], keys[s], test); }
      }
    }
  }

  lemma MatchOwns(c: Coin, ks: seq<Key>, test: Test)
    ensures var r := FirstMatch(c, ks, test); r.Some? ==> r.value < |ks| && Owns(ks[r.value], c, test)
  {
  }

  ghost predicate AllRecounted(coins: Coins, keys: Keys) {
    forall s, i :: s in keys && 0 <= i < |keys[s]| ==> Recounted(coins, keys[s][i])
  }

  lemma AllRecountsKept(coins: Coins, keys: Keys, keys': Keys, found: Found, new_: Cursors, list: seq<CoinId>, test: Test)
    requires AllRecounted(coins, keys) && KeysUpdated(keys, keys', found, new_)
    requires FoundIn(found, coins, keys, list, test)
    requires forall id :: id in list ==> id in coins && coins[id].owner.None?
    ensures AllRecounted(Written(coins, keys, list, test), keys')
  {
    hide Recounted, KeyUpdated, Written, FoundIn;
    forall s, i | s in keys' && 0 <= i < |keys'[s]| ensures Recounted(Written(coins, keys, list, test), keys'[s][i]) {
      assert KeyListUpdated(keys[s], keys'[s], s, found, new_);
      RecountKept(coins, keys[s][i], keys'[s][i], s, found, new_, keys, list, test);
    }
  }

  ghost predicate IsLeastCursor(c: nat, ks: seq<Key>, kind: Kind) {
    && (forall i :: 0 <= i < |ks| ==> c <= Last(ks[i], kind))
    && (exists i :: 0 <= i < |ks| && c == Last(ks[i], kind))
  }

  ghost predicate MinCursorsOf(keys: Keys, cursors: Cursors) {
    && (forall ch :: ch in cursors <==> ch.shard in keys)
    && (forall ch :: ch in cursors && ch.shard in keys ==> IsLeastCursor(cursors[ch], keys[ch.shard], ch.kind))
  }

  lemma StartOfScan(coins: Coins, keys: Keys, cursors: Cursors, test: Test)
    requires MinCursorsOf(keys, cursors)
    ensures Advanced(keys, keys, cursors)
    ensures forall ch :: Covered(coins, keys, cursors, test, ch) && (ch in cursors && cursors[ch] == 0 <==> ReadsFromZero(keys, ch))
  {
    hide Last;
    forall ch ensures ch in cursors && cursors[ch] == 0 <==> ReadsFromZero(keys, ch) {
      if ch in cursors {
        assert IsLeastCursor(cursors[ch], keys[ch.shard], ch.kind);
      }
    }
    forall ch, i: nat, id | Due(coins, keys, ch, i, id) ensures StillToRead(coins, cursors, id) {
      assert IsLeastCursor(cursors[ch], keys[ch.shard], ch.kind);
    }
    forall s | s in keys ensures KeyListAdvanced(keys[s], keys[s], s, cursors) {
    }
  }

  /** Some key of the shard has nothing of this kind scanned yet. */
  ghost predicate ReadsFromZero(keys: Keys, ch: Chan) {
    ch.shard in keys && exists i :: 0 <= i < |keys[ch.shard]| && Last(keys[ch.shard][i], ch.kind) == 0
  }

  /** What makes a scan read all of a channel. */
  ghost predicate Readable(coins: Coins, keys: Keys, ch: Chan) {
    IndicesDistinct(coins, ch) && (|AtZero(coins, ch)| < LIMIT || !ReadsFromZero(keys, ch))
  }

  /** What the hypotheses on indices promise of a channel during the scan. */
  ghost predicate Promised(coins: Coins, keys0: Keys, cursors: Cursors, test: Test, ch: Chan) {
    IndicesDistinct(coins, ch) && FewAtZero(coins, cursors, ch) && Covered(coins, keys0, cursors, test, ch)
  }

  ghost predicate NoneOwns(c: Coin, ks: seq<Key>, test: Test) {
    forall i :: 0 <= i < |ks| ==> !Owns(ks[i], c, test)
  }

  /** The coins of index 0 without an owner that none of the keys assigned here takes: burnt ones and those of other workers' keys. */
  ghost function Orphans(coins: Coins, keys: Keys, test: Test, ch: Chan): set<CoinId> {
    set z | z in AtZero(coins, ch) && NoneOwns(coins[z], KeysOf(keys, ch.shard), test)
  }

  /** LIMIT of those fill every batch from cursor 0. */
  ghost predicate Stalled(coins: Coins, keys: Keys, cursors: Cursors, test: Test, ch: Chan) {
    ch in cursors && cursors[ch] == 0 && |Orphans(coins, keys, test, ch)| >= LIMIT
  }

  /** A scan of these coins and keys finds the channel stalled. */
  ghost predicate StallsFrom(coins0: Coins, keys0: Keys, test: Test, ch: Chan) {
    ReadsFromZero(keys0, ch) && |Orphans(coins0, keys0, test, ch)| >= LIMIT
  }

  /** The coins of the channel above index 0 are as they were. */
  ghost predicate HigherUntouched(coins0: Coins, coins: Coins, ch: Chan) {
    forall id :: id in coins0 && id in coins && coins0[id].chan == ch && coins0[id].index > 0 ==> coins[id] == coins0[id]
  }

  /** No key of the shard owns a coin of a higher index that it is due for. */
  ghost predicate NothingHigher(coins: Coins, keys: Keys, test: Test, ch: Chan) {
    forall i: nat, id :: Due(coins, keys, ch, i, id) && coins[id].index > 0 ==> test(coins[id], keys[ch.shard][i].ota).None?
  }

  /** No key of the shard owns a coin of index 0 that it is due for. */
  ghost predicate NothingAtZero(coins: Coins, keys: Keys, test: Test, ch: Chan) {
    forall i: nat, id :: Due(coins, keys, ch, i, id) && coins[id].index == 0 ==> test(coins[id], keys[ch.shard][i].ota).None?
  }

  /** A shard is listed once it has a key; its keys are distinct. */
  ghost predicate WellListed(keys: Keys) {
    && (forall s :: s in keys ==> keys[s] != [])
    && (forall s, i, j :: s in keys && 0 <= i < j < |keys[s]| ==> keys[s][i].ota != keys[s][j].ota)
  }

  class Worker {
    var keys: Keys
    var coins: Coins
    const test: Test

    constructor (coins: Coins, test: Test)
      ensures WellListed(keys) && keys == map[] && this.coins == coins && this.test == test
    {
      keys, this.coins, this.test := map[], coins, test;
    }

    method AssignKey(s: Shard, k: Key)
      requires WellListed(keys)
      modifies this`keys
      ensures WellListed(keys)
      ensures AllRecounted(coins, old(keys)) && Recounted(coins, k) ==> AllRecounted(coins, keys)
      ensures keys == old(if exists i :: 0 <= i < |KeysOf(keys, s)| && KeysOf(keys, s)[i].ota == k.ota then keys
                          else keys[s := KeysOf(keys, s) + [k]])
    {
      var ks := KeysOf(keys, s);
      var i := 0;
      while i < |ks|
        invariant 0 <= i <= |ks| && forall j :: 0 <= j < i ==> ks[j].ota != k.ota
      {
        if ks[i].ota == k.ota {
          return;
        }
        i := i + 1;
      }
      keys := keys[s := ks + [k]];
    }

    method LeastCursor(ks: seq<Key>, kind: Kind) returns (c: nat)
      requires ks != []
      ensures IsLeastCursor(c, ks, kind)
    {
      c := Last(ks[0], kind);
      var i := 0;
      while i < |ks|
        invariant 0 <= i <= |ks|
        invariant forall j :: 0 <= j < i ==> c <= Last(ks[j], kind)
        invariant exists j :: 0 <= j < |ks| && c == Last(ks[j], kind)
      {
        if TokenOf(kind) in ks[i].coinIndex {
          if c > ks[i].coinIndex[TokenOf(kind)].lastScanned {
            c := ks[i].coinIndex[TokenOf(kind)].lastScanned;
            assert c == Last(ks[i], kind);
          }
        } else {
          c := 0;
          assert c == Last(ks[i], kind);
        }
        i := i + 1;
      }
    }

    method MinCursors() returns (cursors: Cursors)
      requires WellListed(keys)
      ensures MinCursorsOf(keys, cursors)
    {
      cursors := map[];
      var todo := keys.Keys;
      while todo != {}
        invariant todo <= keys.Keys
        invariant forall ch :: ch in cursors <==> ch.shard in keys.Keys - todo
        invariant forall ch :: ch in cursors && ch.shard in keys ==> IsLeastCursor(cursors[ch], keys[ch.shard], ch.kind)
      {
        var s :| s in todo;
        todo := todo - {s};
        var prv := LeastCursor(keys[s], Prv);
        var asset := LeastCursor(keys[s], Asset);
        cursors := cursors[Chan(s, Prv) := prv][Chan(s, Asset) := asset];
        assert forall ch: Chan :: ch.kind == Prv || ch.kind == Asset;
      }
    }

    method UpdateCoinState(found: Found, ghost list: seq<CoinId>, new_: Cursors)
      requires FoundIn(found, coins, keys, list, test)
      requires forall id :: id in list ==> id in coins && coins[id].owner.None?
      modifies this`keys, this`coins
      ensures KeysUpdated(old(keys), keys, found, new_)
      ensures coins == Written(old(coins), old(keys), list, test)
    {
      hide Verdict, KeysUpdated, Written;
      var hits := CoinsToUpdate(found);
      forall h | h in hits ensures h.id in coins && h.coin == Verdict(coins[h.id], KeysOf(keys, coins[h.id].chan.shard), test) {
        var ota :| h in HitsOf(found, ota);
        assert IsHit(coins, keys, list, test, ota, h);
      }
      var written := UpdateCoins(coins, hits);
      HitsAreVerdicts(coins, written, found, hits, keys, list, test);
      keys := UpdateKeys(keys, found, new_);
      coins := written;
    }

    /** One round of the scan; `more` tells whether another one follows. */
    method ScanBatch(cursors: Cursors, ghost keys0: Keys) returns (new_: Cursors, more: bool)
      requires Advanced(keys0, keys, cursors)
      modifies this`keys, this`coins
      ensures Advanced(keys0, keys, new_)
      ensures OnlyAssigned(old(coins), coins, keys0, test)
      ensures AllRecounted(old(coins), old(keys)) ==> AllRecounted(coins, keys)
      ensures forall ch :: Promised(old(coins), keys0, cursors, test, ch) ==> Promised(coins, keys0, new_, test, ch)
      ensures forall ch :: Promised(old(coins), keys0, cursors, test, ch) && !more ==> Complete(coins, keys0, test, ch)
      ensures forall ch :: Stalled(old(coins), old(keys), cursors, test, ch) ==> Stalled(coins, keys, new_, test, ch) && HigherUntouched(old(coins), coins, ch)
      ensures more ==> |Pending(coins, new_)| < |Pending(old(coins), cursors)|
    {
      hide *;
      var list := GetUnknownCoins(coins, cursors);
      if |list| == 0 {
        forall ch {
          EmptyBatch(coins, keys0, keys, cursors, list, test, ch);
        }
        AdvancedNowhere(keys0, keys, cursors);
        OnlyAssignedSelf(coins, keys0, test);
        return map[], false;
      }
      BatchUnowned(coins, cursors, list);
      BatchDistinct(coins, cursors, list);
      var found: Found;
      found, new_ := FilterCoins(coins, keys, list, test);
      UpdateCoinState(found, list, new_);
      more := false;
      var todo := new_.Keys;
      while todo != {}
        invariant todo <= new_.Keys
        invariant more <==> exists ch :: ch in new_.Keys - todo && new_[ch] != Cur(cursors, ch)
      {
        var ch :| ch in todo;
        todo := todo - {ch};
        if new_[ch] != Cur(cursors, ch) {
          more := true;
        }
      }
      BatchDone(old(coins), keys0, old(keys), keys, cursors, list, found, new_, more, test);
    }

    /**
     The scan ends. Of a channel whose coins of index 0 do not fill a batch, or whose keys
     have all been scanned beyond it, every coin above the cursor a key started with has
     been tested against that key. Where coins that no key takes do fill the batch nothing
     above index 0 is read. Other channels do not matter.
     */
    method ScanOTACoins()
      requires WellListed(keys)
      modifies this`keys, this`coins
      ensures WellListed(keys)
      ensures Advanced(old(keys), keys, map[])
      ensures OnlyAssigned(old(coins), coins, old(keys), test)
      ensures AllRecounted(old(coins), old(keys)) ==> AllRecounted(coins, keys)
      ensures AllRecounted(old(coins), old(keys)) ==> AllGrow(old(coins), coins, old(keys), keys, test)
      ensures forall ch :: Readable(old(coins), old(keys), ch) ==> Complete(coins, old(keys), test, ch)
      ensures forall ch :: StallsFrom(old(coins), old(keys), test, ch) ==> HigherUntouched(old(coins), coins, ch)
      ensures forall ch :: Readable(old(coins), old(keys), ch) || StallsFrom(old(coins), old(keys), test, ch) ==>
                (Complete(coins, old(keys), test, ch) <==>
                  Readable(old(coins), old(keys), ch)
                  || (NothingHigher(old(coins), old(keys), test, ch) && NothingAtZero(coins, old(keys), test, ch)))
      ensures forall ch :: IndicesDistinct(old(coins), ch) && AtZero(old(coins), ch) == Orphans(old(coins), old(keys), test, ch) ==>
                (Complete(coins, old(keys), test, ch) <==>
                  Readable(old(coins), old(keys), ch) || NothingHigher(old(coins), old(keys), test, ch))
    {
      hide *;
      ghost var keys0, coins0 := keys, coins;
      var cursors := MinCursors();
      StartOfScan(coins, keys, cursors, test);
      OnlyAssignedSelf(coins, keys0, test);
      StartPromises(coins, keys0, cursors, test);
      var more := true;
      while more
        invariant Advanced(keys0, keys, cursors)
        invariant OnlyAssigned(coins0, coins, keys0, test)
        invariant AllRecounted(coins0, keys0) ==> AllRecounted(coins, keys)
        invariant forall ch :: Readable(coins0, keys0, ch) ==>
                    if more then Promised(coins, keys0, cursors, test, ch) else Complete(coins, keys0, test, ch)
        invariant forall ch :: StallsFrom(coins0, keys0, test, ch) ==> Stalled(coins, keys, cursors, test, ch) && HigherUntouched(coins0, coins, ch)
        decreases more, |Pending(coins, cursors)|
      {
        ghost var mid := coins;
        cursors, more := ScanBatch(cursors, keys0);
        OnlyAssignedTwice(coins0, mid, coins, keys0, test);
        UntouchedTwice(coins0, mid, coins, keys0, test);
      }
      StillListed(keys0, keys, cursors);
      AdvancedNowhere(keys0, keys, cursors);
      CompleteExactly(coins0, coins, keys0, test);
      if AllRecounted(coins0, keys0) {
        AllIndicesGrow(coins0, coins, keys0, keys, test);
      }
    }
  }

  lemma StillListed(keys0: Keys, keys: Keys, cursors: Cursors)
    requires WellListed(keys0) && Advanced(keys0, keys, cursors)
    ensures WellListed(keys)
  {
    forall s | s in keys0 ensures KeyListAdvanced(keys0[s], keys[s], s, cursors) {
    }
    forall s, i | s in keys && 0 <= i < |keys[s]| ensures keys[s][i].ota == keys0[s][i].ota {
      assert KeyAdvanced(keys0[s][i], keys[s][i], s, cursors);
    }
  }

  lemma BatchDistinct(coins: Coins, cursors: Cursors, list: seq<CoinId>)
    requires IsBatches(coins, cursors, list)
    ensures Distinct(list)
  {
  }

  /** Where nothing is read nothing was left to read. */
  lemma EmptyBatch(coins: Coins, keys0: Keys, keys: Keys, cursors: Cursors, list: seq<CoinId>, test: Test, ch: Chan)
    requires list == [] && IsBatches(coins, cursors, list)
    ensures Promised(coins, keys0, cursors, test, ch) ==> Promised(coins, keys0, map[], test, ch) && Complete(coins, keys0, test, ch)
    ensures !Stalled(coins, keys, cursors, test, ch)
  {
    hide IndicesDistinct, Due, NoneOwns, IsBatches, Beyond;
    assert InChan(coins, list, ch) == {};
    forall id | id in coins && coins[id].owner.None? && coins[id].chan == ch ensures !StillToRead(coins, cursors, id) {
      if StillToRead(coins, cursors, id) {
        LeftOut(coins, cursors, list, ch, id);
      }
    }
    if ch in cursors && cursors[ch] == 0 {
      assert forall z :: z in AtZero(coins, ch) ==> StillToRead(coins, cursors, z);
      assert AtZero(coins, ch) == {};
      assert Orphans(coins, keys, test, ch) == {};
    }
    forall i: nat, id | Due(coins, keys0, ch, i, id) ensures id in coins && coins[id].owner.None? && coins[id].chan == ch {
      DueUnowned(coins, keys0, ch, i, id);
    }
  }

  lemma DueUnowned(coins: Coins, keys0: Keys, ch: Chan, i: nat, id: CoinId)
    requires Due(coins, keys0, ch, i, id)
    ensures id in coins && coins[id].owner.None? && coins[id].chan == ch
  {
  }

  lemma AdvancedNowhere(keys0: Keys, keys: Keys, cursors: Cursors)
    requires Advanced(keys0, keys, cursors)
    ensures Advanced(keys0, keys, map[])
  {
    forall s | s in keys0 ensures KeyListAdvanced(keys0[s], keys[s], s, map[]) {
      assert KeyListAdvanced(keys0[s], keys[s], s, cursors);
      forall i | 0 <= i < |keys0[s]| ensures KeyAdvanced(keys0[s][i], keys[s][i], s, map[]) {
        assert KeyAdvanced(keys0[s][i], keys[s][i], s, cursors);
      }
    }
  }

  lemma OnlyAssignedSelf(coins: Coins, keys0: Keys, test: Test)
    ensures OnlyAssigned(coins, coins, keys0, test)
  {
  }

  lemma OnlyAssignedTwice(a: Coins, b: Coins, c: Coins, keys0: Keys, test: Test)
    requires OnlyAssigned(a, b, keys0, test) && OnlyAssigned(b, c, keys0, test)
    ensures OnlyAssigned(a, c, keys0, test)
  {
  }

  lemma StartPromises(coins: Coins, keys: Keys, cursors: Cursors, test: Test)
    requires forall ch :: Covered(coins, keys, cursors, test, ch) && (ch in cursors && cursors[ch] == 0 <==> ReadsFromZero(keys, ch))
    ensures forall ch :: Readable(coins, keys, ch) ==> Promised(coins, keys, cursors, test, ch)
    ensures forall ch :: StallsFrom(coins, keys, test, ch) ==> Stalled(coins, keys, cursors, test, ch) && HigherUntouched(coins, coins, ch)
  {
    hide Covered, ReadsFromZero, IndicesDistinct, Orphans, AtZero;
  }

  lemma UntouchedTwice(a: Coins, b: Coins, c: Coins, keys0: Keys, test: Test)
    requires OnlyAssigned(a, b, keys0, test) && OnlyAssigned(a, c, keys0, test)
    ensures forall ch :: HigherUntouched(a, b, ch) && HigherUntouched(b, c, ch) ==> HigherUntouched(a, c, ch)
  {
    hide FoundBy;
  }

  /**
   What a scan is known to do decides when it completes a channel. Nothing is decided where
   coins of index 0 fill a batch only together with some that a key takes: then it depends
   on which of them the database returns first.
   */
  lemma CompleteExactly(coins0: Coins, coins: Coins, keys0: Keys, test: Test)
    requires OnlyAssigned(coins0, coins, keys0, test)
    requires forall ch :: Readable(coins0, keys0, ch) ==> Complete(coins, keys0, test, ch)
    requires forall ch :: StallsFrom(coins0, keys0, test, ch) ==> HigherUntouched(coins0, coins, ch)
    ensures forall ch :: Readable(coins0, keys0, ch) || StallsFrom(coins0, keys0, test, ch) ==>
      (Complete(coins, keys0, test, ch) <==>
        Readable(coins0, keys0, ch) || (NothingHigher(coins0, keys0, test, ch) && NothingAtZero(coins, keys0, test, ch)))
    ensures forall ch :: IndicesDistinct(coins0, ch) && AtZero(coins0, ch) == Orphans(coins0, keys0, test, ch) ==>
      (Complete(coins, keys0, test, ch) <==> Readable(coins0, keys0, ch) || NothingHigher(coins0, keys0, test, ch))
  {
    hide IndicesDistinct, ReadsFromZero, FoundBy, Complete, NothingHigher, NothingAtZero, HigherUntouched, Orphans, AtZero, OnlyAssigned;
    forall ch | StallsFrom(coins0, keys0, test, ch)
      ensures Complete(coins, keys0, test, ch) <==> NothingHigher(coins0, keys0, test, ch) && NothingAtZero(coins, keys0, test, ch)
    {
      StalledComplete(coins0, coins, keys0, test, ch);
    }
    forall ch | AtZero(coins0, ch) == Orphans(coins0, keys0, test, ch) ensures NothingAtZero(coins, keys0, test, ch) {
      OrphansAreNothing(coins0, coins, keys0, test, ch);
    }
  }

  lemma StalledComplete(coins0: Coins, coins: Coins, keys0: Keys, test: Test, ch: Chan)
    requires OnlyAssigned(coins0, coins, keys0, test) && HigherUntouched(coins0, coins, ch)
    ensures Complete(coins, keys0, test, ch) <==> NothingHigher(coins0, keys0, test, ch) && NothingAtZero(coins, keys0, test, ch)
  {
    hide FoundBy, Last, Above;
    forall i: nat, id ensures Due(coins, keys0, ch, i, id) ==> Due(coins0, keys0, ch, i, id) && coins[id] == coins0[id] {
      FoundHasOwner(coins0, coins, keys0, test, id);
    }
    forall i: nat, id | Due(coins0, keys0, ch, i, id) && coins0[id].index > 0 ensures Due(coins, keys0, ch, i, id) && coins[id] == coins0[id] {
    }
  }

  lemma FoundHasOwner(coins0: Coins, coins: Coins, keys0: Keys, test: Test, id: CoinId)
    requires OnlyAssigned(coins0, coins, keys0, test)
    ensures id in coins && coins[id].owner.None? ==> id in coins0 && coins[id] == coins0[id]
  {
  }

  lemma OrphansAreNothing(coins0: Coins, coins: Coins, keys0: Keys, test: Test, ch: Chan)
    requires OnlyAssigned(coins0, coins, keys0, test) && AtZero(coins0, ch) == Orphans(coins0, keys0, test, ch)
    ensures NothingAtZero(coins, keys0, test, ch)
  {
    hide OnlyAssigned, Last;
    forall i: nat, id | Due(coins, keys0, ch, i, id) && coins[id].index == 0 ensures test(coins[id], keys0[ch.shard][i].ota).None? {
      FoundHasOwner(coins0, coins, keys0, test, id);
      assert id in AtZero(coins0, ch);
      assert !Owns(KeysOf(keys0, ch.shard)[i], coins0[id], test);
    }
  }

  lemma BatchDone(coins: Coins, keys0: Keys, keys: Keys, keys': Keys, cursors: Cursors, list: seq<CoinId>, found: Found, new_: Cursors, more: bool, test: Test)
    requires IsBatches(coins, cursors, list) && IsNewCursors(new_, coins, list)
    requires Advanced(keys0, keys, cursors) && KeysUpdated(keys, keys', found, new_) && FoundIn(found, coins, keys, list, test)
    requires more <==> exists ch :: ch in new_ && new_[ch] != Cur(cursors, ch)
    ensures var coins' := Written(coins, keys, list, test);
            && Advanced(keys0, keys', new_)
            && OnlyAssigned(coins, coins', keys0, test)
            && (AllRecounted(coins, keys) ==> AllRecounted(coins', keys'))
            && (forall ch :: Promised(coins, keys0, cursors, test, ch) ==> Promised(coins', keys0, new_, test, ch))
            && (forall ch :: Promised(coins, keys0, cursors, test, ch) && !more ==> Complete(coins', keys0, test, ch))
            && (forall ch :: Stalled(coins, keys, cursors, test, ch) ==> Stalled(coins', keys', new_, test, ch) && HigherUntouched(coins, coins', ch))
            && (more ==> |Pending(coins', new_)| < |Pending(coins, cursors)|)
  {
    hide *;
    BatchUnowned(coins, cursors, list);
    NewCursorsAhead(coins, cursors, list, new_);
    AdvancedKept(keys0, keys, keys', cursors, new_, found);
    OnlyAssignedSelf(coins, keys0, test);
    OnlyAssignedKept(coins, coins, keys0, keys, cursors, list, test);
    if AllRecounted(coins, keys) {
      AllRecountsKept(coins, keys, keys', found, new_, list, test);
    }
    var coins' := Written(coins, keys, list, test);
    forall ch | Promised(coins, keys0, cursors, test, ch)
      ensures Promised(coins', keys0, new_, test, ch) && (!more ==> Complete(coins', keys0, test, ch))
    {
      PromiseKept(coins, keys0, keys, cursors, list, new_, more, test, ch);
    }
    forall ch | Stalled(coins, keys, cursors, test, ch) ensures Stalled(coins', keys', new_, test, ch) && HigherUntouched(coins, coins', ch) {
      StallKept(coins, keys, keys', cursors, list, found, new_, test, ch);
    }
    if more {
      CurIs(cursors, new_);
      var ch :| ch in new_ && new_[ch] != Cur(cursors, ch);
      PendingShrinks(coins, keys, cursors, list, new_, test, ch);
    }
  }

  lemma CurIs(cursors: Cursors, new_: Cursors)
    ensures forall ch :: ch in cursors ==> Cur(cursors, ch) == cursors[ch]
  {
  }

  lemma PromiseKept(coins: Coins, keys0: Keys, keys: Keys, cursors: Cursors, list: seq<CoinId>, new_: Cursors, more: bool, test: Test, ch: Chan)
    requires IsBatches(coins, cursors, list) && IsNewCursors(new_, coins, list) && Advanced(keys0, keys, cursors)
    requires more <==> exists o :: o in new_ && new_[o] != Cur(cursors, o)
    ensures var coins' := Written(coins, keys, list, test);
            Promised(coins, keys0, cursors, test, ch) ==> Promised(coins', keys0, new_, test, ch) && (!more ==> Complete(coins', keys0, test, ch))
  {
    hide IndicesDistinct, FewAtZero, Covered, IsBatches, IsNewCursors, Written, Advanced, Complete;
    if Promised(coins, keys0, cursors, test, ch) {
      BatchUnowned(coins, cursors, list);
      NewCursorsAhead(coins, cursors, list, new_);
      CoveredKept(coins, keys0, keys, cursors, list, new_, test, ch);
      HypothesesKept(coins, keys, cursors, list, new_, test, ch);
    }
  }

  // ---------- what the hypothesis on index 0 is for ----------

  /**
   A cursor leaves 0 exactly when the coins of index 0 without an owner do not fill the
   batch. Otherwise every batch reads the same coins, the scan stops, and a coin of a
   higher index is not tested.
   */
  lemma CursorLeavesZero(coins: Coins, cursors: Cursors, list: seq<CoinId>, new_: Cursors, ch: Chan)
    requires IsBatches(coins, cursors, list) && IsNewCursors(new_, coins, list)
    requires ch in cursors && cursors[ch] == 0
    ensures Cur(new_, ch) > 0 <==> |AtZero(coins, ch)| < LIMIT && HigherCoin(coins, ch)
  {
    hide IsBatches;
    var read, zeros := InChan(coins, list, ch), AtZero(coins, ch);
    BatchUnowned(coins, cursors, list);
    if Cur(new_, ch) > 0 {
      var top :| top in list && top in coins && coins[top].chan == ch && coins[top].index == new_[ch];
      assert HigherCoin(coins, ch);
      forall z | z in zeros ensures z in read {
        if z !in list {
          LeftOut(coins, cursors, list, ch, z);
        }
      }
      assert top in read && top !in zeros;
      SubsetSize(zeros, read);
      ReadFits(coins, cursors, list, ch);
    } else if HigherCoin(coins, ch) {
      var id :| id in coins && coins[id].chan == ch && coins[id].owner.None? && coins[id].index > 0;
      assert id !in list;
      LeftOut(coins, cursors, list, ch, id);
      forall r | r in read ensures r in zeros {
        assert coins[r].index <= new_[ch];
      }
      SubsetSize(read, zeros);
    }
  }

  /**
   When no assigned key takes LIMIT of the coins of index 0, no round of a scan from
   cursor 0 reads a higher coin of the channel, and each round leaves those coins to the next.
   */
  lemma StallPersists(coins: Coins, keys: Keys, keys': Keys, cursors: Cursors, list: seq<CoinId>, found: Found, new_: Cursors, test: Test, ch: Chan)
    requires IsBatches(coins, cursors, list) && IsNewCursors(new_, coins, list) && KeysUpdated(keys, keys', found, new_)
    requires Stalled(coins, keys, cursors, test, ch)
    ensures ch in new_ && new_[ch] == 0
    ensures forall id :: id in list && id in coins && coins[id].chan == ch ==> coins[id].index == 0
    ensures Orphans(Written(coins, keys, list, test), keys', test, ch) == Orphans(coins, keys, test, ch)
  {
    hide IsBatches, KeysUpdated, NoneOwns, Written;
    var zeros, orphans := AtZero(coins, ch), Orphans(coins, keys, test, ch);
    SubsetSize(orphans, zeros);
    CursorLeavesZero(coins, cursors, list, new_, ch);
    BatchUnowned(coins, cursors, list);
    assert exists r :: r in list && r in coins && coins[r].chan == ch by {
      var z: CoinId :| z in zeros;
      if z !in list {
        assert Eligible(coins, ch, 0, z);
        LeftOut(coins, cursors, list, ch, z);
        assert InChan(coins, list, ch) != {};
      }
    }
    OrphansStay(coins, keys, keys', list, found, new_, test, ch);
  }

  lemma OrphansStay(coins: Coins, keys: Keys, keys': Keys, list: seq<CoinId>, found: Found, new_: Cursors, test: Test, ch: Chan)
    requires KeysUpdated(keys, keys', found, new_) && Cur(new_, ch) == 0
    requires forall id :: id in list ==> id in coins && coins[id].owner.None?
    ensures Orphans(Written(coins, keys, list, test), keys', test, ch) == Orphans(coins, keys, test, ch)
  {
    hide KeysUpdated, NoneOwns, Written, Verdict;
    var coins' := Written(coins, keys, list, test);
    WrittenKeys(coins, keys, list, test);
    forall z ensures z in Orphans(coins', keys', test, ch) <==> z in Orphans(coins, keys, test, ch) {
      if z in coins {
        WrittenAt(coins, keys, list, test, z);
        if coins[z].chan == ch {
          SameTakers(coins[z], keys, keys', found, new_, test);
        }
        if NoneOwns(coins[z], KeysOf(keys, coins[z].chan.shard), test) {
          OrphanUnchanged(coins, keys, list, test, z);
        }
      }
    }
  }

  lemma OrphanUnchanged(coins: Coins, keys: Keys, list: seq<CoinId>, test: Test, z: CoinId)
    requires z in coins && NoneOwns(coins[z], KeysOf(keys, coins[z].chan.shard), test)
    ensures Written(coins, keys, list, test)[z] == coins[z]
  {
  }

  /** A key whose cursor of a channel does not move takes the same coins of it. */
  lemma SameTakers(c: Coin, keys: Keys, keys': Keys, found: Found, new_: Cursors, test: Test)
    requires KeysUpdated(keys, keys', found, new_) && Cur(new_, c.chan) == 0
    ensures NoneOwns(c, KeysOf(keys', c.chan.shard), test) <==> NoneOwns(c, KeysOf(keys, c.chan.shard), test)
  {
    hide Last, KeyUpdated;
    var s := c.chan.shard;
    assert c.chan == Chan(s, c.chan.kind);
    if s in keys {
      assert KeyListUpdated(keys[s], keys'[s], s, found, new_);
      forall i | 0 <= i < |keys[s]| ensures Owns(keys'[s][i], c, test) <==> Owns(keys[s][i], c, test) {
        LastRaised(keys[s][i], keys'[s][i], s, found, new_, c.chan.kind);
        SameOta(keys[s][i], keys'[s][i], s, found, new_);
      }
    }
  }

  lemma SameOta(k: Key, k': Key, s: Shard, found: Found, cursors: Cursors)
    requires KeyUpdated(k, k', s, found, cursors)
    ensures k'.ota == k.ota
  {
  }

  lemma StallKept(coins: Coins, keys: Keys, keys': Keys, cursors: Cursors, list: seq<CoinId>, found: Found, new_: Cursors, test: Test, ch: Chan)
    requires IsBatches(coins, cursors, list) && IsNewCursors(new_, coins, list) && KeysUpdated(keys, keys', found, new_)
    requires Stalled(coins, keys, cursors, test, ch)
    ensures var coins' := Written(coins, keys, list, test);
            Stalled(coins', keys', new_, test, ch) && HigherUntouched(coins, coins', ch)
  {
    hide IsBatches, IsNewCursors, Verdict, KeysUpdated, Orphans;
    StallPersists(coins, keys, keys', cursors, list, found, new_, test, ch);
  }

  lemma ReadFits(coins: Coins, cursors: Cursors, list: seq<CoinId>, ch: Chan)
    requires IsBatches(coins, cursors, list) && ch in cursors
    ensures |InChan(coins, list, ch)| <= LIMIT
  {
  }

  ghost predicate HigherCoin(coins: Coins, ch: Chan) {
    exists id :: id in coins && coins[id].chan == ch && coins[id].owner.None? && coins[id].index > 0
  }

  /** A coin found by a scan is counted for one key of its shard, in one slot. */
  lemma CountedOnce(coins0: Coins, coins: Coins, keys0: Keys, test: Test, id: CoinId) returns (i: nat)
    requires OnlyAssigned(coins0, coins, keys0, test)
    requires id in coins0 && coins0[id].owner.None? && coins[id].owner.Some?
    requires var ks := KeysOf(keys0, coins0[id].chan.shard); forall i, j :: 0 <= i < j < |ks| ==> ks[i].ota != ks[j].ota
    ensures var ks := KeysOf(keys0, coins0[id].chan.shard);
            && i < |ks| && id in Mine(coins, ks[i].ota, SlotOf(coins[id]))
            && forall j, slot :: 0 <= j < |ks| && id in Mine(coins, ks[j].ota, slot) ==> j == i && slot == SlotOf(coins[id])
  {
    var c, ks := coins0[id], KeysOf(keys0, coins0[id].chan.shard);
    assert FoundBy(c, coins[id], ks, test);
    i :| 0 <= i < |ks| && GivenTo(c, coins[id], ks[i].ota, test);
  }
}
