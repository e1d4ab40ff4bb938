/**
 Mirroring the exchange state in collections (chainsynker/beacon.go,
 processPoolPairs and the writes of processBeacon; database/pdex.go): rows of the
 new state are upserted and rows that only the previous state had are deleted, by
 goroutines that run at the same time.
 */
module PoolMirror {
  import opened Types

  type PoolId = string
  type Nft = string
  type OrderId = string

  datatype Share = Share(amount: nat, tradingFee: map<string, nat>)

  datatype Order = Order(id: OrderId, details: string)

  datatype PoolPair = PoolPair(details: string, shares: map<Nft, Share>, orderRewards: map<Nft, map<string, nat>>, orders: seq<Order>)

  type Pools = map<PoolId, PoolPair>

  datatype ShareKey = ShareKey(pool: PoolId, nft: Nft)

  /** A share that is not held has amount 0 and no trading fee. */
  datatype ShareRow = ShareRow(amount: nat, tradingFee: map<string, nat>, orderReward: map<string, nat>)

  datatype OrderRow = OrderRow(pool: PoolId, details: string)

  // ---------- the rows of a state ----------

  ghost predicate HasShareRow(s: Pools, k: ShareKey) {
    k.pool in s && (k.nft in s[k.pool].shares || k.nft in s[k.pool].orderRewards)
  }

  /** The share's amount and trading fee, if it is held, and the order reward, if there is one, whether or not there is a share. */
  ghost predicate IsShareRow(s: Pools, k: ShareKey, row: ShareRow) {
    && k.pool in s
    && (if k.nft in s[k.pool].shares
        then row.amount == s[k.pool].shares[k.nft].amount && row.tradingFee == s[k.pool].shares[k.nft].tradingFee
        else row.amount == 0 && row.tradingFee == map[])
    && (if k.nft in s[k.pool].orderRewards then row.orderReward == s[k.pool].orderRewards[k.nft] else row.orderReward == map[])
  }

  function RowOfShare(p: PoolPair, n: Nft): (row: ShareRow)
    ensures forall s: Pools, k: ShareKey :: k.pool in s && s[k.pool] == p && k.nft == n ==> IsShareRow(s, k, row)
  {
    var share := if n in p.shares then p.shares[n] else Share(0, map[]);
    ShareRow(share.amount, share.tradingFee, if n in p.orderRewards then p.orderRewards[n] else map[])
  }

  ghost predicate HasOrder(s: Pools, id: OrderId) {
    exists p, i :: p in s && 0 <= i < |s[p].orders| && s[p].orders[i].id == id
  }

  /** Order ids are unique among all pools, and an order stays in its pool. */
  ghost predicate OrdersUnique(prev: Pools, new_: Pools) {
    && (forall p, q, i, j ::
          (p in prev && q in new_ && 0 <= i < |prev[p].orders| && 0 <= j < |new_[q].orders| && prev[p].orders[i].id == new_[q].orders[j].id)
          ==> p == q)
    && OrdersDistinct(new_)
  }

  ghost predicate OrdersDistinct(s: Pools) {
    forall p, q, i, j ::
      (p in s && q in s && 0 <= i < |s[p].orders| && 0 <= j < |s[q].orders| && s[p].orders[i].id == s[q].orders[j].id)
      ==> p == q && i == j
  }

  // ---------- lists of rows ----------

  /** A row to upsert. */
  datatype Row<K, V> = Row(key: K, value: V)

  ghost predicate DistinctKeys<K, V>(rows: seq<Row<K, V>>) {
    forall i, j :: 0 <= i < j < |rows| ==> rows[i].key != rows[j].key
  }

  method ShareRows(id: PoolId, p: PoolPair) returns (rows: seq<Row<ShareKey, ShareRow>>)
    ensures DistinctKeys(rows)
    ensures forall r :: r in rows <==> r.key.pool == id && (r.key.nft in p.shares || r.key.nft in p.orderRewards)
                                       && r.value == RowOfShare(p, r.key.nft)
  {
    rows := [];
    var collected: set<Nft> := {};
    var todo := p.shares.Keys;
    while todo != {}
      invariant todo <= p.shares.Keys && DistinctKeys(rows)
      invariant forall r :: r in rows <==> r.key.pool == id && r.key.nft in p.shares.Keys - todo && r.value == RowOfShare(p, r.key.nft)
      invariant collected == (p.shares.Keys - todo) * p.orderRewards.Keys
    {
      var n :| n in todo;
      todo := todo - {n};
      var orderReward := map[];
      if n in p.orderRewards {
        orderReward := p.orderRewards[n];
        collected := collected + {n};
      }
      var row := Row(ShareKey(id, n), ShareRow(p.shares[n].amount, p.shares[n].tradingFee, orderReward));
      AppendRow(rows, row);
      rows := rows + [row];
    }
    todo := p.orderRewards.Keys;
    while todo != {}
      invariant todo <= p.orderRewards.Keys && DistinctKeys(rows)
      invariant collected == p.shares.Keys * p.orderRewards.Keys
      invariant forall r :: r in rows <==> r.key.pool == id && r.key.nft in p.shares.Keys + (p.orderRewards.Keys - todo)
                                           && r.value == RowOfShare(p, r.key.nft)
    {
      var n :| n in todo;
      todo := todo - {n};
      if n !in collected {
        var row := Row(ShareKey(id, n), ShareRow(0, map[], p.orderRewards[n]));
        AppendRow(rows, row);
        rows := rows + [row];
      }
    }
  }

  lemma AppendRow<K, V>(rows: seq<Row<K, V>>, row: Row<K, V>)
    requires DistinctKeys(rows) && forall r :: r in rows ==> r.key != row.key
    ensures DistinctKeys(rows + [row]) && forall r :: r in rows + [row] <==> r in rows || r == row
  {
  }

  lemma AppendRows<K, V>(a: seq<Row<K, V>>, b: seq<Row<K, V>>)
    requires DistinctKeys(a) && DistinctKeys(b) && forall r, r' :: r in a && r' in b ==> r.key != r'.key
    ensures DistinctKeys(a + b) && forall r :: r in a + b <==> r in a || r in b
  {
  }

  method OrderRows(id: PoolId, p: PoolPair) returns (rows: seq<Row<OrderId, OrderRow>>)
    ensures |rows| == |p.orders|
    ensures forall i :: 0 <= i < |rows| ==> rows[i] == Row(p.orders[i].id, OrderRow(id, p.orders[i].details))
  {
    rows := [];
    var i := 0;
    while i < |p.orders|
      invariant 0 <= i <= |p.orders| && |rows| == i
      invariant forall j :: 0 <= j < i ==> rows[j] == Row(p.orders[j].id, OrderRow(id, p.orders[j].details))
    {
      rows := rows + [Row(p.orders[i].id, OrderRow(id, p.orders[i].details))];
      i := i + 1;
    }
  }

  /** The row of an order. */
  ghost predicate IsOrderRow(s: Pools, r: Row<OrderId, OrderRow>) {
    exists i :: r.value.pool in s && 0 <= i < |s[r.value.pool].orders|
      && s[r.value.pool].orders[i] == Order(r.key, r.value.details)
  }

  /** All rows of the new state: one per pool, one per NFT with a share or an order reward, one per order. */
  method Upserts(s: Pools)
    returns (pools: seq<Row<PoolId, string>>, shares: seq<Row<ShareKey, ShareRow>>, orders: seq<Row<OrderId, OrderRow>>)
    ensures DistinctKeys(pools) && forall r :: r in pools <==> r.key in s && r.value == s[r.key].details
    ensures DistinctKeys(shares)
    ensures forall r :: r in shares <==> HasShareRow(s, r.key) && IsShareRow(s, r.key, r.value)
    ensures forall r :: r in orders <==> IsOrderRow(s, r)
    ensures OrdersDistinct(s) ==> DistinctKeys(orders)
  {
    pools, shares, orders := [], [], [];
    var todo := s.Keys;
    while todo != {}
      invariant todo <= s.Keys && DistinctKeys(pools) && DistinctKeys(shares)
      invariant forall r :: r in pools <==> r.key in s.Keys - todo && r.value == s[r.key].details
      invariant forall r :: r in shares <==> r.key.pool !in todo && HasShareRow(s, r.key) && r.value == RowOfShare(s[r.key.pool], r.key.nft)
      invariant forall r :: r in orders <==> r.value.pool !in todo && IsOrderRow(s, r)
      invariant OrdersDistinct(s) ==> DistinctKeys(orders)
    {
      var id :| id in todo;
      todo := todo - {id};
      AppendRow(pools, Row(id, s[id].details));
      pools := pools + [Row(id, s[id].details)];
      var poolShares := ShareRows(id, s[id]);
      AppendRows(shares, poolShares);
      shares := shares + poolShares;
      var poolOrders := OrderRows(id, s[id]);
      OrderRowsOfPool(s, id, poolOrders);
      if OrdersDistinct(s) {
        forall r, r' | r in orders && r' in poolOrders ensures r.key != r'.key {
          assert IsOrderRow(s, r) && IsOrderRow(s, r');
        }
        AppendRows(orders, poolOrders);
      }
      orders := orders + poolOrders;
    }
  }

  lemma OrderRowsOfPool(s: Pools, id: PoolId, rows: seq<Row<OrderId, OrderRow>>)
    requires id in s && |rows| == |s[id].orders|
    requires forall i :: 0 <= i < |rows| ==> rows[i] == Row(s[id].orders[i].id, OrderRow(id, s[id].orders[i].details))
    ensures forall r :: r in rows <==> r.value.pool == id && IsOrderRow(s, r)
    ensures OrdersDistinct(s) ==> DistinctKeys(rows)
  {
    forall r ensures r in rows <==> r.value.pool == id && IsOrderRow(s, r) {
      if r in rows {
        var i :| 0 <= i < |rows| && rows[i] == r;
        assert s[id].orders[i] == Order(r.key, r.value.details);
      }
      if r.value.pool == id && IsOrderRow(s, r) {
        var i :| 0 <= i < |s[id].orders| && s[id].orders[i] == Order(r.key, r.value.details);
        assert rows[i] == r;
      }
    }
  }

  // ---------- rows that only the previous state had ----------

  /**
   Share rows to delete. In a pool that stays, only NFTs with a share are looked at, so
   a row that had nothing but an order reward is not found.
   */
  ghost predicate ShareGone(prev: Pools, new_: Pools, k: ShareKey) {
    k.pool in prev && k.nft in prev[k.pool].shares && !HasShareRow(new_, k)
  }

  /** Orders are looked for in the new order book of their own pool. */
  ghost predicate OrderGone(prev: Pools, new_: Pools, id: OrderId) {
    exists p :: OrderGoneFrom(prev, new_, p, id)
  }

  ghost predicate OrderGoneFrom(prev: Pools, new_: Pools, p: PoolId, id: OrderId) {
    p in prev && HasId(prev[p].orders, id) && (p in new_ ==> !HasId(new_[p].orders, id))
  }

  ghost predicate HasId(orders: seq<Order>, id: OrderId) {
    exists i :: 0 <= i < |orders| && orders[i].id == id
  }

  method ShareDeletes(id: PoolId, old_: PoolPair, now: Option<PoolPair>) returns (keys: seq<ShareKey>)
    ensures forall k :: k in keys <==> k.pool == id && k.nft in old_.shares
                                       && (now.Some? ==> k.nft !in now.value.shares && k.nft !in now.value.orderRewards)
  {
    keys := [];
    var todo := old_.shares.Keys;
    while todo != {}
      invariant todo <= old_.shares.Keys
      invariant forall k :: k in keys <==> k.pool == id && k.nft in old_.shares.Keys - todo
                                           && (now.Some? ==> k.nft !in now.value.shares && k.nft !in now.value.orderRewards)
    {
      var n :| n in todo;
      todo := todo - {n};
      var willDelete := now.None? || (n !in now.value.shares && n !in now.value.orderRewards);
      if willDelete {
        keys := keys + [ShareKey(id, n)];
      }
    }
  }

  method OrderDeletes(old_: seq<Order>, now: seq<Order>) returns (ids: seq<OrderId>)
    ensures forall id :: id in ids <==> HasId(old_, id) && !HasId(now, id)
  {
    ids := [];
    var i := 0;
    while i < |old_|
      invariant 0 <= i <= |old_|
      invariant forall id :: id in ids <==> (exists j :: 0 <= j < i && old_[j].id == id) && !HasId(now, id)
    {
      var willDelete := true;
      var j := 0;
      while j < |now|
        invariant 0 <= j <= |now|
        invariant willDelete <==> forall l :: 0 <= l < j ==> now[l].id != old_[i].id
      {
        if now[j].id == old_[i].id {
          willDelete := false;
        }
        j := j + 1;
      }
      if willDelete {
        ids := ids + [old_[i].id];
      }
      i := i + 1;
    }
  }

  method Deletes(prev: Pools, new_: Pools) returns (pools: seq<PoolId>, shares: seq<ShareKey>, orders: seq<OrderId>)
    ensures forall p :: p in pools <==> p in prev && p !in new_
    ensures forall k :: k in shares <==> ShareGone(prev, new_, k)
    ensures forall id :: id in orders <==> OrderGone(prev, new_, id)
  {
    pools, shares, orders := [], [], [];
    var todo := prev.Keys;
    while todo != {}
      invariant todo <= prev.Keys
      invariant forall p :: p in pools <==> p in prev.Keys - todo && p !in new_
      invariant forall k :: k in shares <==> k.pool !in todo && ShareGone(prev, new_, k)
      invariant forall id :: id in orders <==> exists p :: p !in todo && OrderGoneFrom(prev, new_, p, id)
    {
      var id :| id in todo;
      todo := todo - {id};
      var now := if id in new_ then Some(new_[id]) else None;
      if now.None? {
        pools := pools + [id];
      }
      var poolShares := ShareDeletes(id, prev[id], now);
      shares := shares + poolShares;
      var poolOrders := OrderDeletes(prev[id].orders, if now.Some? then now.value.orders else []);
      orders := orders + poolOrders;
      assert forall x :: x in poolOrders <==> OrderGoneFrom(prev, new_, id, x);
    }
  }

  // ---------- stakers ----------

  type TokenId = string

  datatype StakeKey = StakeKey(token: TokenId, nft: Nft)

  datatype Staker = Staker(amount: nat, reward: map<string, nat>)

  type Stakes = map<TokenId, map<Nft, Staker>>

  ghost predicate HasStaker(s: Stakes, k: StakeKey) { k.token in s && k.nft in s[k.token] }

  method StakerUpserts(s: Stakes) returns (rows: seq<Row<StakeKey, Staker>>)
    ensures DistinctKeys(rows)
    ensures forall r :: r in rows <==> HasStaker(s, r.key) && r.value == s[r.key.token][r.key.nft]
  {
    rows := [];
    var todo := s.Keys;
    while todo != {}
      invariant todo <= s.Keys && DistinctKeys(rows)
      invariant forall r :: r in rows <==> r.key.token !in todo && HasStaker(s, r.key) && r.value == s[r.key.token][r.key.nft]
    {
      var t :| t in todo;
      todo := todo - {t};
      var left := s[t].Keys;
      while left != {}
        invariant left <= s[t].Keys && DistinctKeys(rows)
        invariant forall r :: r in rows <==> r.key.token !in todo && HasStaker(s, r.key) && r.value == s[r.key.token][r.key.nft]
                                             && (r.key.token == t ==> r.key.nft !in left)
      {
        var n :| n in left;
        left := left - {n};
        AppendRow(rows, Row(StakeKey(t, n), s[t][n]));
        rows := rows + [Row(StakeKey(t, n), s[t][n])];
      }
    }
  }

  method StakerDeletes(prev: Stakes, new_: Stakes) returns (keys: seq<StakeKey>)
    ensures forall k :: k in keys <==> HasStaker(prev, k) && !HasStaker(new_, k)
  {
    keys := [];
    var todo := prev.Keys;
    while todo != {}
      invariant todo <= prev.Keys
      invariant forall k :: k in keys <==> k.token !in todo && HasStaker(prev, k) && !HasStaker(new_, k)
    {
      var t :| t in todo;
      todo := todo - {t};
      var left := prev[t].Keys;
      while left != {}
        invariant left <= prev[t].Keys
        invariant forall k :: k in keys <==> k.token !in todo && HasStaker(prev, k) && !HasStaker(new_, k) && (k.token == t ==> k.nft !in left)
      {
        var n :| n in left;
        left := left - {n};
        if t !in new_ || n !in new_[t] {
          keys := keys + [StakeKey(t, n)];
        }
      }
    }
  }

  // ---------- concurrent writes ----------

  /** One statement against a collection. */
  datatype Op<K, V> = Upsert(row: Row<K, V>) | Delete(key: K)

  function Apply<K, V>(coll: map<K, V>, op: Op<K, V>): map<K, V> {
    match op
    case Upsert(row) => coll[row.key := row.value]
    case Delete(key) => coll - {key}
  }

  function Run<K, V>(coll: map<K, V>, ops: seq<Op<K, V>>): map<K, V> {
    if ops == [] then coll else Apply(Run(coll, ops[..|ops| - 1]), ops[|ops| - 1])
  }

  /** The statements of the upserting and of the deleting goroutine, in any order. */
  ghost predicate Interleaving<K(!new), V(!new)>(ops: seq<Op<K, V>>, ups: seq<Row<K, V>>, dels: seq<K>) {
    && (forall r :: Upsert(r) in ops <==> r in ups)
    && (forall k :: Delete(k) in ops <==> k in dels)
  }

  ghost predicate Apart<K(!new), V(!new)>(ups: seq<Row<K, V>>, dels: seq<K>) {
    DistinctKeys(ups) && forall r :: r in ups ==> r.key !in dels
  }

  ghost predicate Touches<K, V>(ops: seq<Op<K, V>>, k: K) {
    exists i :: 0 <= i < |ops| && (if ops[i].Upsert? then ops[i].row.key else ops[i].key) == k
  }

  /** The collection after all writes: its rows without those deleted, and the new rows. */
  ghost predicate Written<K(!new), V(!new)>(coll: map<K, V>, ups: seq<Row<K, V>>, dels: seq<K>, after: map<K, V>) {
    && (forall r :: r in ups ==> r.key in after && after[r.key] == r.value)
    && (forall k :: k in after && k in dels ==> false)
    && (forall k :: k !in dels && (forall r :: r in ups ==> r.key != k) ==> (k in after <==> k in coll) && (k in after ==> after[k] == coll[k]))
  }

  /** What a key holds is settled by the writes that touch it, in whatever order they come. */
  lemma {:induction false} KeyAfter<K(!new), V(!new)>(coll: map<K, V>, ops: seq<Op<K, V>>, ups: seq<Row<K, V>>, dels: seq<K>, k: K)
    requires Apart(ups, dels)
    requires forall r :: Upsert(r) in ops ==> r in ups
    requires forall x :: Delete(x) in ops ==> x in dels
    ensures !Touches(ops, k) ==> (k in Run(coll, ops) <==> k in coll) && (k in coll ==> Run(coll, ops)[k] == coll[k])
    ensures Touches(ops, k) && k in dels ==> k !in Run(coll, ops)
    ensures forall r :: Touches(ops, k) && r in ups && r.key == k ==> k in Run(coll, ops) && Run(coll, ops)[k] == r.value
  {
    if ops != [] {
      var init, last := ops[..|ops| - 1], ops[|ops| - 1];
      assert last in ops;
      KeyAfter(coll, init, ups, dels, k);
      assert Touches(ops, k) <==> Touches(init, k) || (if last.Upsert? then last.row.key else last.key) == k by {
        assert forall i :: 0 <= i < |init| ==> init[i] == ops[i];
      }
      forall r | Touches(ops, k) && r in ups && r.key == k
        ensures k in Run(coll, ops) && Run(coll, ops)[k] == r.value
      {
        if last.Upsert? && last.row.key == k {
          SameRow(ups, r, last.row);
        }
      }
    }
  }

  lemma SameRow<K, V>(ups: seq<Row<K, V>>, a: Row<K, V>, b: Row<K, V>)
    requires DistinctKeys(ups) && a in ups && b in ups && a.key == b.key
    ensures a == b
  {
    var i :| 0 <= i < |ups| && ups[i] == a;
    var j :| 0 <= j < |ups| && ups[j] == b;
  }

  /** Every order of the writes ends in the same collection. */
  lemma WritesSettle<K(!new), V(!new)>(coll: map<K, V>, ops: seq<Op<K, V>>, ups: seq<Row<K, V>>, dels: seq<K>)
    requires Apart(ups, dels) && Interleaving(ops, ups, dels)
    ensures Written(coll, ups, dels, Run(coll, ops))
  {
    hide Run;
    forall k {
      KeyAfter(coll, ops, ups, dels, k);
    }
  }

  /**
   A crash between two writes and a rerun from the same two states: what the interrupted
   run had done (any of its writes, any number of them) leaves no trace.
   */
  lemma RerunSettles<K(!new), V(!new)>(coll: map<K, V>, partial: seq<Op<K, V>>, ops: seq<Op<K, V>>, ups: seq<Row<K, V>>, dels: seq<K>)
    requires Apart(ups, dels) && Interleaving(ops, ups, dels)
    requires forall op :: op in partial ==> op in ops
    ensures Written(coll, ups, dels, Run(Run(coll, partial), ops))
  {
    hide Run;
    var mid := Run(coll, partial);
    WritesSettle(mid, ops, ups, dels);
    forall k | k !in dels && (forall r :: r in ups ==> r.key != k)
      ensures (k in mid <==> k in coll) && (k in mid ==> mid[k] == coll[k])
    {
      KeyAfter(coll, partial, ups, dels, k);
      forall op | op in partial
        ensures (if op.Upsert? then op.row.key else op.key) != k
      {
        assert op in ops;
      }
    }
  }

  // ---------- the mirror ----------

  /** The rows and deletions of one block, collection by collection. */
  ghost predicate IsPoolDiff(prev: Pools, new_: Pools, ups: seq<Row<PoolId, string>>, dels: seq<PoolId>) {
    && DistinctKeys(ups)
    && (forall r :: r in ups <==> r.key in new_ && r.value == new_[r.key].details)
    && (forall p :: p in dels <==> p in prev && p !in new_)
  }

  ghost predicate IsOrderDiff(prev: Pools, new_: Pools, ups: seq<Row<OrderId, OrderRow>>, dels: seq<OrderId>) {
    && (OrdersDistinct(new_) ==> DistinctKeys(ups))
    && (forall r :: r in ups <==> IsOrderRow(new_, r))
    && (forall id :: id in dels <==> OrderGone(prev, new_, id))
  }

  ghost predicate IsStakerDiff(prev: Stakes, new_: Stakes, ups: seq<Row<StakeKey, Staker>>, dels: seq<StakeKey>) {
    && DistinctKeys(ups)
    && (forall r :: r in ups <==> HasStaker(new_, r.key) && r.value == new_[r.key.token][r.key.nft])
    && (forall k :: k in dels <==> HasStaker(prev, k) && !HasStaker(new_, k))
  }

  ghost predicate IsShareDiff(prev: Pools, new_: Pools, ups: seq<Row<ShareKey, ShareRow>>, dels: seq<ShareKey>) {
    && DistinctKeys(ups)
    && (forall r :: r in ups <==> HasShareRow(new_, r.key) && IsShareRow(new_, r.key, r.value))
    && (forall k :: k in dels <==> ShareGone(prev, new_, k))
  }

  /** The rows are there, with their values. */
  ghost predicate HasRows<K(!new), V(!new)>(coll: map<K, V>, ups: seq<Row<K, V>>) {
    forall r :: r in ups ==> r.key in coll && coll[r.key] == r.value
  }

  ghost predicate HasKey<K(!new), V(!new)>(ups: seq<Row<K, V>>, k: K) {
    exists r :: r in ups && r.key == k
  }

  ghost predicate NoOtherRows<K(!new), V(!new)>(coll: map<K, V>, ups: seq<Row<K, V>>) {
    forall k :: k in coll ==> HasKey(ups, k)
  }

  /**
   Whatever a collection held before: after the writes it has all new rows, and no others
   exactly when every row it held is among the new ones or deleted.
   */
  lemma WritesMirror<K(!new), V(!new)>(coll: map<K, V>, ops: seq<Op<K, V>>, ups: seq<Row<K, V>>, dels: seq<K>)
    requires Apart(ups, dels) && Interleaving(ops, ups, dels)
    ensures HasRows(Run(coll, ops), ups)
    ensures NoOtherRows(Run(coll, ops), ups) <==> forall k :: k in coll ==> HasKey(ups, k) || k in dels
    ensures forall k :: k in Run(coll, ops) <==> HasKey(ups, k) || (k in coll && k !in dels)
  {
    hide Run;
    WritesSettle(coll, ops, ups, dels);
  }

  ghost predicate ExactPools(s: Pools, coll: map<PoolId, string>) {
    coll.Keys == s.Keys && forall p :: p in s ==> coll[p] == s[p].details
  }

  ghost predicate ExactOrders(s: Pools, coll: map<OrderId, OrderRow>) {
    && (forall id :: id in coll <==> HasOrder(s, id))
    && (forall r :: IsOrderRow(s, r) ==> r.key in coll && coll[r.key] == r.value)
  }

  ghost predicate ExactStakers(s: Stakes, coll: map<StakeKey, Staker>) {
    forall k :: (k in coll <==> HasStaker(s, k)) && (HasStaker(s, k) ==> coll[k] == s[k.token][k.nft])
  }

  ghost predicate LiveShares(s: Pools, coll: map<ShareKey, ShareRow>) {
    forall k :: HasShareRow(s, k) ==> k in coll && IsShareRow(s, k, coll[k])
  }

  ghost predicate ExactShares(s: Pools, coll: map<ShareKey, ShareRow>) {
    LiveShares(s, coll) && forall k :: k in coll ==> HasShareRow(s, k)
  }

  /** The mirror of the pools is exact exactly when it held none but pools of the two states. */
  lemma PoolsMirrored(prev: Pools, new_: Pools, coll: map<PoolId, string>, ups: seq<Row<PoolId, string>>, dels: seq<PoolId>, ops: seq<Op<PoolId, string>>)
    requires IsPoolDiff(prev, new_, ups, dels) && Interleaving(ops, ups, dels)
    ensures Apart(ups, dels)
    ensures ExactPools(new_, Run(coll, ops)) <==> coll.Keys <= prev.Keys + new_.Keys
  {
    hide Run;
    PoolKeys(prev, new_, ups, dels);
    WritesMirror(coll, ops, ups, dels);
    ExactPoolsIs(prev, new_, ups, dels, Run(coll, ops));
  }

  lemma PoolKeys(prev: Pools, new_: Pools, ups: seq<Row<PoolId, string>>, dels: seq<PoolId>)
    requires IsPoolDiff(prev, new_, ups, dels)
    ensures Apart(ups, dels) && forall p :: HasKey(ups, p) <==> p in new_
  {
    forall p | p in new_ ensures HasKey(ups, p) {
      assert Row(p, new_[p].details) in ups;
    }
  }

  lemma ExactPoolsIs(prev: Pools, new_: Pools, ups: seq<Row<PoolId, string>>, dels: seq<PoolId>, coll: map<PoolId, string>)
    requires IsPoolDiff(prev, new_, ups, dels)
    ensures ExactPools(new_, coll) <==> HasRows(coll, ups) && NoOtherRows(coll, ups)
  {
    PoolKeys(prev, new_, ups, dels);
    if HasRows(coll, ups) && NoOtherRows(coll, ups) {
      forall p | p in new_ ensures p in coll && coll[p] == new_[p].details {
        assert Row(p, new_[p].details) in ups;
      }
      assert coll.Keys == new_.Keys;
    }
  }

  /** The same for orders. */
  lemma OrdersMirrored(prev: Pools, new_: Pools, coll: map<OrderId, OrderRow>, ups: seq<Row<OrderId, OrderRow>>, dels: seq<OrderId>, ops: seq<Op<OrderId, OrderRow>>)
    requires OrdersUnique(prev, new_)
    requires IsOrderDiff(prev, new_, ups, dels) && Interleaving(ops, ups, dels)
    ensures Apart(ups, dels)
    ensures ExactOrders(new_, Run(coll, ops)) <==> forall id :: id in coll ==> HasOrder(prev, id) || HasOrder(new_, id)
  {
    hide Run;
    OrderKeys(prev, new_, ups, dels);
    WritesMirror(coll, ops, ups, dels);
    ExactOrdersIs(prev, new_, ups, dels, Run(coll, ops));
  }

  lemma OrderKeys(prev: Pools, new_: Pools, ups: seq<Row<OrderId, OrderRow>>, dels: seq<OrderId>)
    requires OrdersUnique(prev, new_) && IsOrderDiff(prev, new_, ups, dels)
    ensures Apart(ups, dels)
    ensures forall id :: HasKey(ups, id) <==> HasOrder(new_, id)
    ensures forall id :: id in dels <==> HasOrder(prev, id) && !HasOrder(new_, id)
  {
    forall id ensures OrderGone(prev, new_, id) <==> HasOrder(prev, id) && !HasOrder(new_, id) {
      GoneOrders(prev, new_, id);
    }
    forall id | HasOrder(new_, id) ensures HasKey(ups, id) {
      var p, i :| p in new_ && 0 <= i < |new_[p].orders| && new_[p].orders[i].id == id;
      assert IsOrderRow(new_, Row(id, OrderRow(p, new_[p].orders[i].details)));
    }
    forall r | r in ups ensures HasOrder(new_, r.key) {
      assert IsOrderRow(new_, r);
    }
  }

  lemma ExactOrdersIs(prev: Pools, new_: Pools, ups: seq<Row<OrderId, OrderRow>>, dels: seq<OrderId>, coll: map<OrderId, OrderRow>)
    requires OrdersUnique(prev, new_) && IsOrderDiff(prev, new_, ups, dels)
    ensures ExactOrders(new_, coll) <==> HasRows(coll, ups) && NoOtherRows(coll, ups)
  {
    hide HasOrder, IsOrderRow;
    OrderKeys(prev, new_, ups, dels);
  }

  lemma GoneOrders(prev: Pools, new_: Pools, id: OrderId)
    requires OrdersUnique(prev, new_)
    ensures OrderGone(prev, new_, id) <==> HasOrder(prev, id) && !HasOrder(new_, id)
  {
    if HasOrder(prev, id) && !HasOrder(new_, id) {
      var p, i :| p in prev && 0 <= i < |prev[p].orders| && prev[p].orders[i].id == id;
      assert OrderGoneFrom(prev, new_, p, id);
    }
  }

  /** The same for stakers. */
  lemma StakersMirrored(prev: Stakes, new_: Stakes, coll: map<StakeKey, Staker>, ups: seq<Row<StakeKey, Staker>>, dels: seq<StakeKey>, ops: seq<Op<StakeKey, Staker>>)
    requires IsStakerDiff(prev, new_, ups, dels) && Interleaving(ops, ups, dels)
    ensures Apart(ups, dels)
    ensures ExactStakers(new_, Run(coll, ops)) <==> forall k :: k in coll ==> HasStaker(prev, k) || HasStaker(new_, k)
  {
    hide Run;
    StakerKeys(prev, new_, ups, dels);
    WritesMirror(coll, ops, ups, dels);
    ExactStakersIs(prev, new_, ups, dels, Run(coll, ops));
  }

  lemma StakerKeys(prev: Stakes, new_: Stakes, ups: seq<Row<StakeKey, Staker>>, dels: seq<StakeKey>)
    requires IsStakerDiff(prev, new_, ups, dels)
    ensures Apart(ups, dels) && forall k :: HasKey(ups, k) <==> HasStaker(new_, k)
  {
    forall k | HasStaker(new_, k) ensures HasKey(ups, k) {
      assert Row(k, new_[k.token][k.nft]) in ups;
    }
  }

  lemma ExactStakersIs(prev: Stakes, new_: Stakes, ups: seq<Row<StakeKey, Staker>>, dels: seq<StakeKey>, coll: map<StakeKey, Staker>)
    requires IsStakerDiff(prev, new_, ups, dels)
    ensures ExactStakers(new_, coll) <==> HasRows(coll, ups) && NoOtherRows(coll, ups)
  {
    StakerKeys(prev, new_, ups, dels);
    if HasRows(coll, ups) && NoOtherRows(coll, ups) {
      forall k | HasStaker(new_, k) ensures k in coll && coll[k] == new_[k.token][k.nft] {
        assert Row(k, new_[k.token][k.nft]) in ups;
      }
    }
  }

  /**
   No live share row is lost, whatever was there before. The mirror has no other rows
   exactly when every row it held is live or belonged to an NFT with a share: a row that
   only held an order reward is never deleted.
   */
  lemma SharesMirrored(prev: Pools, new_: Pools, coll: map<ShareKey, ShareRow>, ups: seq<Row<ShareKey, ShareRow>>, dels: seq<ShareKey>, ops: seq<Op<ShareKey, ShareRow>>)
    requires IsShareDiff(prev, new_, ups, dels) && Interleaving(ops, ups, dels)
    ensures Apart(ups, dels) && LiveShares(new_, Run(coll, ops))
    ensures ExactShares(new_, Run(coll, ops))
       <==> forall k :: k in coll ==> HasShareRow(new_, k) || (k.pool in prev && k.nft in prev[k.pool].shares)
  {
    hide Run, RowOfShare;
    ShareKeys(prev, new_, ups, dels);
    WritesMirror(coll, ops, ups, dels);
    ExactSharesIs(prev, new_, ups, dels, Run(coll, ops));
  }

  lemma ShareKeys(prev: Pools, new_: Pools, ups: seq<Row<ShareKey, ShareRow>>, dels: seq<ShareKey>)
    requires IsShareDiff(prev, new_, ups, dels)
    ensures Apart(ups, dels) && forall k :: HasKey(ups, k) <==> HasShareRow(new_, k)
  {
    hide RowOfShare;
    forall k | HasShareRow(new_, k) ensures HasKey(ups, k) {
      assert Row(k, RowOfShare(new_[k.pool], k.nft)) in ups;
    }
  }

  lemma ExactSharesIs(prev: Pools, new_: Pools, ups: seq<Row<ShareKey, ShareRow>>, dels: seq<ShareKey>, coll: map<ShareKey, ShareRow>)
    requires IsShareDiff(prev, new_, ups, dels)
    ensures LiveShares(new_, coll) <==> HasRows(coll, ups)
    ensures ExactShares(new_, coll) <==> HasRows(coll, ups) && NoOtherRows(coll, ups)
  {
    hide RowOfShare;
    ShareKeys(prev, new_, ups, dels);
    if HasRows(coll, ups) {
      forall k | HasShareRow(new_, k) ensures k in coll && coll[k] == RowOfShare(new_[k.pool], k.nft) {
        assert Row(k, RowOfShare(new_[k.pool], k.nft)) in ups;
      }
    }
  }

  /** Such a row stays: an NFT collects its last order reward and its row is still there. */
  lemma OrderRewardRowStays(nft: Nft, pool: PoolId, reward: map<string, nat>, ops: seq<Op<ShareKey, ShareRow>>, ups: seq<Row<ShareKey, ShareRow>>, dels: seq<ShareKey>)
    requires IsShareDiff(map[pool := PoolPair("", map[], map[nft := reward], [])], map[pool := PoolPair("", map[], map[], [])], ups, dels)
    requires Interleaving(ops, ups, dels)
    ensures var coll := map[ShareKey(pool, nft) := ShareRow(0, map[], reward)]; Run(coll, ops) == coll
  {
    forall op: Op<ShareKey, ShareRow> ensures op !in ops {
      match op
      case Upsert(row) => assert row !in ups;
      case Delete(key) => assert key !in dels;
    }
    if ops != [] {
      SomeOp(ops);
    }
  }

  lemma SomeOp<T(!new)>(ops: seq<T>)
    requires ops != []
    ensures exists op :: op in ops
  {
    assert ops[0] in ops;
  }

  /**
   The rows written for a state and the rows deleted for it never meet, so the order of the
   goroutines is free, and what they leave behind is known for every collection they find.
   */
  method MirrorDiff(prev: Pools, new_: Pools)
    returns (pools: seq<Row<PoolId, string>>, shares: seq<Row<ShareKey, ShareRow>>, orders: seq<Row<OrderId, OrderRow>>,
             poolsGone: seq<PoolId>, sharesGone: seq<ShareKey>, ordersGone: seq<OrderId>)
    ensures IsPoolDiff(prev, new_, pools, poolsGone)
    ensures IsShareDiff(prev, new_, shares, sharesGone)
    ensures IsOrderDiff(prev, new_, orders, ordersGone)
    ensures Apart(pools, poolsGone) && Apart(shares, sharesGone)
    ensures OrdersUnique(prev, new_) ==> Apart(orders, ordersGone)
    ensures forall coll: map<PoolId, string>, ops :: Interleaving(ops, pools, poolsGone) ==>
              (ExactPools(new_, Run(coll, ops)) <==> coll.Keys <= prev.Keys + new_.Keys)
    ensures forall coll: map<ShareKey, ShareRow>, ops :: Interleaving(ops, shares, sharesGone) ==> LiveShares(new_, Run(coll, ops))
    ensures OrdersUnique(prev, new_) ==> forall coll: map<OrderId, OrderRow>, ops :: Interleaving(ops, orders, ordersGone) ==>
              (ExactOrders(new_, Run(coll, ops)) <==> forall id :: id in coll ==> HasOrder(prev, id) || HasOrder(new_, id))
  {
    pools, shares, orders := Upserts(new_);
    poolsGone, sharesGone, ordersGone := Deletes(prev, new_);
    PoolKeys(prev, new_, pools, poolsGone);
    ShareKeys(prev, new_, shares, sharesGone);
    hide *;
    forall coll: map<PoolId, string>, ops | Interleaving(ops, pools, poolsGone)
      ensures ExactPools(new_, Run(coll, ops)) <==> coll.Keys <= prev.Keys + new_.Keys
    {
      PoolsMirrored(prev, new_, coll, pools, poolsGone, ops);
    }
    forall coll: map<ShareKey, ShareRow>, ops | Interleaving(ops, shares, sharesGone)
      ensures LiveShares(new_, Run(coll, ops))
    {
      SharesMirrored(prev, new_, coll, shares, sharesGone, ops);
    }
    if OrdersUnique(prev, new_) {
      OrderKeys(prev, new_, orders, ordersGone);
      forall coll: map<OrderId, OrderRow>, ops | Interleaving(ops, orders, ordersGone)
        ensures ExactOrders(new_, Run(coll, ops)) <==> forall id :: id in coll ==> HasOrder(prev, id) || HasOrder(new_, id)
      {
        OrdersMirrored(prev, new_, coll, orders, ordersGone, ops);
      }
    }
  }

  /** The same for stakers. */
  method StakerDiff(prev: Stakes, new_: Stakes) returns (ups: seq<Row<StakeKey, Staker>>, dels: seq<StakeKey>)
    ensures IsStakerDiff(prev, new_, ups, dels) && Apart(ups, dels)
    ensures forall coll: map<StakeKey, Staker>, ops :: Interleaving(ops, ups, dels) ==>
              (ExactStakers(new_, Run(coll, ops)) <==> forall k :: k in coll ==> HasStaker(prev, k) || HasStaker(new_, k))
  {
    ups := StakerUpserts(new_);
    dels := StakerDeletes(prev, new_);
    StakerKeys(prev, new_, ups, dels);
    hide *;
    forall coll: map<StakeKey, Staker>, ops | Interleaving(ops, ups, dels)
      ensures ExactStakers(new_, Run(coll, ops)) <==> forall k :: k in coll ==> HasStaker(prev, k) || HasStaker(new_, k)
    {
      StakersMirrored(prev, new_, coll, ups, dels, ops);
    }
  }
}
