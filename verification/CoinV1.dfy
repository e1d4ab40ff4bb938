/**
 The index of version-1 coins (chainsynker/shard.go, the per-block aggregation;
 database/coinv1.go, DBUpdateCoinV1PubkeyInfo): for every public key and token the
 least and greatest coin index and the number of coins.
 */
module CoinV1 {
  import opened Types

  datatype CoinInfo = CoinInfo(start: nat, end: nat, total: nat)

  datatype Coin = Coin(pubkey: string, token: string, index: nat)

  type Tokens = map<string, CoinInfo>

  /** Per public key, per token. */
  type Infos = map<string, Tokens>

  function Lookup(m: Infos, pk: string, tk: string): Option<CoinInfo> {
    if pk in m && tk in m[pk] then Some(m[pk][tk]) else None
  }

  function Min(a: nat, b: nat): nat { if a < b then a else b }

  function Max(a: nat, b: nat): nat { if a < b then b else a }

  function Merge(a: Option<CoinInfo>, b: Option<CoinInfo>): Option<CoinInfo> {
    if a.None? then b
    else if b.None? then a
    else Some(CoinInfo(Min(a.value.start, b.value.start), Max(a.value.end, b.value.end), a.value.total + b.value.total))
  }

  function Single(c: Coin, pk: string, tk: string): Option<CoinInfo> {
    if c.pubkey == pk && c.token == tk then Some(CoinInfo(c.index, c.index, 1)) else None
  }

  /** Counting from scratch. */
  function Recount(coins: seq<Coin>, pk: string, tk: string): Option<CoinInfo> {
    if coins == [] then None else Merge(Recount(coins[..|coins| - 1], pk, tk), Single(coins[|coins| - 1], pk, tk))
  }

  ghost function Indices(coins: seq<Coin>, pk: string, tk: string): multiset<nat> {
    if coins == [] then multiset{}
    else Indices(coins[..|coins| - 1], pk, tk)
         + (var c := coins[|coins| - 1]; if c.pubkey == pk && c.token == tk then multiset{c.index} else multiset{})
  }

  /** A recount is the least index, the greatest index and the number of the key's coins of the token. */
  lemma {:induction false} RecountExact(coins: seq<Coin>, pk: string, tk: string)
    ensures var all, r := Indices(coins, pk, tk), Recount(coins, pk, tk);
      && (r.None? <==> all == multiset{})
      && (r.Some? ==> |all| == r.value.total && r.value.start in all && r.value.end in all)
      && (r.Some? ==> forall i :: i in all ==> r.value.start <= i <= r.value.end)
  {
    if coins != [] { RecountExact(coins[..|coins| - 1], pk, tk); }
  }

  lemma {:induction false} RecountConcat(a: seq<Coin>, b: seq<Coin>, pk: string, tk: string)
    ensures Recount(a + b, pk, tk) == Merge(Recount(a, pk, tk), Recount(b, pk, tk))
    decreases |b|
  {
    if b == [] {
      assert a + b == a;
    } else {
      assert (a + b)[..|a + b| - 1] == a + b[..|b| - 1];
      RecountConcat(a, b[..|b| - 1], pk, tk);
    }
  }

  // ---------- one block ----------

  /** The entry of one coin in the block's map. */
  function Count(m: Infos, c: Coin): Infos {
    var tokens := if c.pubkey in m then m[c.pubkey] else map[];
    var info := if c.token in tokens
                then CoinInfo(Min(tokens[c.token].start, c.index), Max(tokens[c.token].end, c.index), tokens[c.token].total + 1)
                else CoinInfo(c.index, c.index, 1);
    m[c.pubkey := tokens[c.token := info]]
  }

  /** The block's map holds the recount of its coins and no empty entries. */
  ghost predicate Aggregates(m: Infos, coins: seq<Coin>) {
    && (forall pk, tk :: Lookup(m, pk, tk) == Recount(coins, pk, tk))
    && (forall pk :: pk in m ==> exists c :: c in coins && c.pubkey == pk)
  }

  lemma CountStep(m: Infos, coins: seq<Coin>, c: Coin)
    requires Aggregates(m, coins)
    ensures Aggregates(Count(m, c), coins + [c])
  {
    assert (coins + [c])[..|coins|] == coins;
    forall pk, tk ensures Lookup(Count(m, c), pk, tk) == Recount(coins + [c], pk, tk) {
      assert Lookup(m, pk, tk) == Recount(coins, pk, tk);
    }
    assert c in coins + [c];
    forall pk | pk in Count(m, c) ensures exists d :: d in coins + [c] && d.pubkey == pk {
      if pk in m {
        var d :| d in coins && d.pubkey == pk;
        assert d in coins + [c];
      }
    }
  }

  method AggregateBlock(coins: seq<Coin>) returns (m: Infos)
    ensures Aggregates(m, coins)
  {
    m := map[];
    var i := 0;
    while i < |coins|
      invariant 0 <= i <= |coins| && Aggregates(m, coins[..i])
    {
      var c := coins[i];
      ghost var before := m;
      if c.pubkey !in m {
        m := m[c.pubkey := map[]];
      }
      if c.token !in m[c.pubkey] {
        m := m[c.pubkey := m[c.pubkey][c.token := CoinInfo(c.index, c.index, 1)]];
      } else {
        var info := m[c.pubkey][c.token];
        info := info.(total := info.total + 1);
        if c.index > info.end {
          info := info.(end := c.index);
        }
        if c.index < info.start {
          info := info.(start := c.index);
        }
        m := m[c.pubkey := m[c.pubkey][c.token := info]];
      }
      assert m == Count(before, c);
      CountStep(before, coins[..i], c);
      assert coins[..i + 1] == coins[..i] + [c];
      i := i + 1;
    }
    assert coins[..|coins|] == coins;
  }

  // ---------- the stored documents ----------

  /** The document of a key after the block's entries are merged into it. */
  function MergeTokens(stored: Tokens, block: Tokens): Tokens {
    map tk | tk in stored.Keys + block.Keys ::
      Merge(if tk in stored then Some(stored[tk]) else None, if tk in block then Some(block[tk]) else None).value
  }

  function TokensOf(m: Infos, pk: string): Tokens {
    if pk in m then m[pk] else map[]
  }

  class KeyInfos {
    var docs: Infos

    /** Merges the block's map into the documents: found ones are updated, the rest inserted. */
    method UpdatePubkeyInfo(block: Infos)
      modifies this
      ensures docs.Keys == old(docs).Keys + block.Keys
      ensures forall pk :: pk in docs ==>
                docs[pk] == if pk in block then MergeTokens(TokensOf(old(docs), pk), block[pk]) else old(docs)[pk]
    {
      hide MergeTokens;
      var found := docs.Keys * block.Keys;
      var list := block;
      var keysToUpdate: Infos := map[];
      while found != {}
        invariant found <= docs.Keys * block.Keys && docs == old(docs)
        invariant forall pk :: pk in keysToUpdate <==> pk in docs && pk in block && pk !in found
        invariant forall pk :: pk in list <==> pk in block && pk !in keysToUpdate
        invariant forall pk :: pk in list ==> list[pk] == block[pk]
        invariant forall pk :: pk in keysToUpdate ==> keysToUpdate[pk] == MergeTokens(docs[pk], block[pk])
      {
        var pk :| pk in found;
        found := found - {pk};
        var merged := MergeDoc(docs[pk], list[pk]);
        list := list - {pk};
        keysToUpdate := keysToUpdate[pk := merged];
      }
      var keysToInsert := list;
      forall pk | pk in keysToInsert ensures MergeTokens(map[], block[pk]) == block[pk] {
        MergeIntoNothing(block[pk]);
      }
      docs := docs + keysToInsert;
      docs := docs + keysToUpdate;
    }
  }

  lemma MergeIntoNothing(block: Tokens)
    ensures MergeTokens(map[], block) == block
  {
  }

  method MergeDoc(stored: Tokens, block: Tokens) returns (coinIndex: Tokens)
    ensures coinIndex == MergeTokens(stored, block)
  {
    coinIndex := stored;
    var todo := block.Keys;
    while todo != {}
      invariant todo <= block.Keys && coinIndex.Keys == stored.Keys + (block.Keys - todo)
      invariant forall tk :: tk in coinIndex ==>
                  coinIndex[tk] == if tk in block && tk !in todo then MergeTokens(stored, block)[tk] else stored[tk]
    {
      var token :| token in todo;
      todo := todo - {token};
      var idx := block[token];
      if token !in coinIndex {
        coinIndex := coinIndex[token := idx];
      } else {
        var info := coinIndex[token];
        if info.start > idx.start {
          info := info.(start := idx.start);
        }
        if info.end < idx.end {
          info := info.(end := idx.end);
        }
        info := info.(total := info.total + idx.total);
        coinIndex := coinIndex[token := info];
      }
    }
  }

  lemma MergeTokensLookup(stored: Tokens, block: Tokens, coins: seq<Coin>, blockCoins: seq<Coin>, pk: string)
    requires forall tk :: Lookup(map[pk := stored], pk, tk) == Recount(coins, pk, tk)
    requires forall tk :: Lookup(map[pk := block], pk, tk) == Recount(blockCoins, pk, tk)
    ensures forall tk :: Lookup(map[pk := MergeTokens(stored, block)], pk, tk) == Recount(coins + blockCoins, pk, tk)
  {
    forall tk ensures Lookup(map[pk := MergeTokens(stored, block)], pk, tk) == Recount(coins + blockCoins, pk, tk) {
      RecountConcat(coins, blockCoins, pk, tk);
      assert Lookup(map[pk := stored], pk, tk) == Recount(coins, pk, tk);
      assert Lookup(map[pk := block], pk, tk) == Recount(blockCoins, pk, tk);
    }
  }

  // ---------- shards updating at the same time ----------

  type Shard = nat

  /** The documents, and for each shard the merged ones it has computed but not yet written. */
  datatype Store = Store(docs: Infos, pending: map<Shard, Infos>, ghost counted: map<Shard, seq<Coin>>)

  ghost function Counted(s: Store, shard: Shard): seq<Coin> {
    if shard in s.counted then s.counted[shard] else []
  }

  datatype Action = ReadAndMerge(shard: Shard, coins: seq<Coin>, block: Infos) | WriteDoc(shard: Shard, pubkey: string)

  /** A shard's block pays keys of that shard only. */
  ghost predicate Enabled(shardOf: string -> Shard, s: Store, a: Action) {
    match a
    case ReadAndMerge(shard, coins, block) =>
      && shard in s.pending && s.pending[shard] == map[]
      && Aggregates(block, coins)
      && forall c :: c in coins ==> shardOf(c.pubkey) == shard
    case WriteDoc(shard, pk) => shard in s.pending && pk in s.pending[shard]
  }

  ghost function Step(shardOf: string -> Shard, s: Store, a: Action): Store
    requires Enabled(shardOf, s, a)
  {
    match a
    case ReadAndMerge(shard, coins, block) =>
      s.(pending := s.pending[shard := map pk | pk in block :: MergeTokens(TokensOf(s.docs, pk), block[pk])],
         counted := s.counted[shard := Counted(s, shard) + coins])
    case WriteDoc(shard, pk) =>
      s.(docs := s.docs[pk := s.pending[shard][pk]], pending := s.pending[shard := s.pending[shard] - {pk}])
  }

  /** What a key's document is, or will be once its shard has written it. */
  ghost function Upcoming(shardOf: string -> Shard, s: Store, pk: string): Tokens {
    var shard := shardOf(pk);
    if shard in s.pending && pk in s.pending[shard] then s.pending[shard][pk] else TokensOf(s.docs, pk)
  }

  ghost predicate IsRecountOf(tokens: Tokens, coins: seq<Coin>, pk: string) {
    forall tk :: Lookup(map[pk := tokens], pk, tk) == Recount(coins, pk, tk)
  }

  ghost predicate Inv(shardOf: string -> Shard, s: Store) {
    && (forall shard, pk :: shard in s.pending && pk in s.pending[shard] ==> shardOf(pk) == shard)
    && (forall pk :: IsRecountOf(Upcoming(shardOf, s, pk), Counted(s, shardOf(pk)), pk))
  }

  lemma {:induction false} NoCoins(coins: seq<Coin>, pk: string, tk: string)
    requires forall c :: c in coins ==> c.pubkey != pk
    ensures Recount(coins, pk, tk) == None
  {
    if coins != [] {
      NoCoins(coins[..|coins| - 1], pk, tk);
      assert coins[|coins| - 1] in coins;
    }
  }

  lemma MoreCoins(tokens: Tokens, coins: seq<Coin>, more: seq<Coin>, pk: string)
    requires IsRecountOf(tokens, coins, pk) && forall tk :: Recount(more, pk, tk) == None
    ensures IsRecountOf(tokens, coins + more, pk)
  {
    forall tk ensures Lookup(map[pk := tokens], pk, tk) == Recount(coins + more, pk, tk) {
      RecountConcat(coins, more, pk, tk);
      assert Lookup(map[pk := tokens], pk, tk) == Recount(coins, pk, tk);
    }
  }

  lemma ReadKeepsInv(shardOf: string -> Shard, s: Store, shard: Shard, coins: seq<Coin>, block: Infos)
    requires Inv(shardOf, s) && Enabled(shardOf, s, ReadAndMerge(shard, coins, block))
    ensures Inv(shardOf, Step(shardOf, s, ReadAndMerge(shard, coins, block)))
  {
    var s' := Step(shardOf, s, ReadAndMerge(shard, coins, block));
    forall pk ensures IsRecountOf(Upcoming(shardOf, s', pk), Counted(s', shardOf(pk)), pk) {
      assert IsRecountOf(Upcoming(shardOf, s, pk), Counted(s, shardOf(pk)), pk);
      if shardOf(pk) == shard {
        assert forall tk :: Lookup(block, pk, tk) == Recount(coins, pk, tk);
        if pk in block {
          MergeTokensLookup(TokensOf(s.docs, pk), block[pk], Counted(s, shard), coins, pk);
        } else {
          MoreCoins(TokensOf(s.docs, pk), Counted(s, shard), coins, pk);
        }
      }
    }
  }

  lemma WriteKeepsInv(shardOf: string -> Shard, s: Store, shard: Shard, pubkey: string)
    requires Inv(shardOf, s) && Enabled(shardOf, s, WriteDoc(shard, pubkey))
    ensures Inv(shardOf, Step(shardOf, s, WriteDoc(shard, pubkey)))
  {
    var s' := Step(shardOf, s, WriteDoc(shard, pubkey));
    forall pk ensures IsRecountOf(Upcoming(shardOf, s', pk), Counted(s', shardOf(pk)), pk) {
      assert IsRecountOf(Upcoming(shardOf, s, pk), Counted(s, shardOf(pk)), pk);
      assert Upcoming(shardOf, s', pk) == Upcoming(shardOf, s, pk);
    }
  }

  ghost predicate IsRun(shardOf: string -> Shard, s: Store, actions: seq<Action>, last: Store)
    decreases |actions|
  {
    if actions == [] then last == s
    else Enabled(shardOf, s, actions[0]) && IsRun(shardOf, Step(shardOf, s, actions[0]), actions[1..], last)
  }

  lemma {:induction false} RunKeepsInv(shardOf: string -> Shard, s: Store, actions: seq<Action>, last: Store)
    requires Inv(shardOf, s) && IsRun(shardOf, s, actions, last)
    ensures Inv(shardOf, last)
    decreases |actions|
  {
    hide Inv, Enabled, Step;
    if actions != [] {
      match actions[0] {
        case ReadAndMerge(shard, coins, block) => ReadKeepsInv(shardOf, s, shard, coins, block);
        case WriteDoc(shard, pk) => WriteKeepsInv(shardOf, s, shard, pk);
      }
      RunKeepsInv(shardOf, Step(shardOf, s, actions[0]), actions[1..], last);
    }
  }

  /**
   However the shards' reads and writes interleave, once nothing is pending each
   key's document is the recount of all coins its shard has processed: no update is lost.
   */
  lemma NoUpdateIsLost(shardOf: string -> Shard, s: Store, actions: seq<Action>, last: Store, pk: string, tk: string)
    requires s.docs == map[] && (forall shard :: shard in s.pending ==> s.pending[shard] == map[]) && s.counted == map[]
    requires IsRun(shardOf, s, actions, last)
    requires forall shard :: shard in last.pending ==> last.pending[shard] == map[]
    ensures Lookup(last.docs, pk, tk) == Recount(Counted(last, shardOf(pk)), pk, tk)
  {
    RunKeepsInv(shardOf, s, actions, last);
    var tokens := Upcoming(shardOf, last, pk);
    assert IsRecountOf(tokens, Counted(last, shardOf(pk)), pk);
    assert tokens == TokensOf(last.docs, pk);
    assert Lookup(map[pk := tokens], pk, tk) == Lookup(last.docs, pk, tk);
  }

  /** The order in which blocks are counted does not matter. */
  lemma OrderDoesNotMatter(a: seq<Coin>, b: seq<Coin>, pk: string, tk: string)
    ensures Recount(a + b, pk, tk) == Recount(b + a, pk, tk)
  {
    RecountConcat(a, b, pk, tk);
    RecountConcat(b, a, pk, tk);
  }
}
