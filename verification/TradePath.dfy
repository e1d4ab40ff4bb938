/**
 What a chosen trade path is worth (pdexv3/pathfinder/pdexv3estimatetrade.go,
 chooseBestPoolFromAPair and FindGoodTradePath), as functions, and the theorem
 that choosing the best pool at every hop of every path is optimal.
 */
module TradePath {
  import opened Types
  import opened FeeMath
  import opened SimplePaths
  import PG = PoolGraph

  datatype Pool = Pool(id: string, token0: Token, token1: Token, virtual0: nat, virtual1: nat, amplifier: nat)

  /**
   The pools on offer, the fee rate of a hop, and what the exchange pays:
   `trade(pool, buysToken0, amount)`.
   */
  datatype Market = Market(pools: seq<Pool>, trade: (Pool, bool, nat) -> nat, feeRateBPS: nat)

  const MAX_PATHS: nat := 20

  const BASE_AMPLIFIER: nat := 10000

  /** `trade` returns a `uint64`, and amplifiers are divisors. */
  ghost predicate WellFormed(m: Market) {
    && (forall p, b, a :: m.trade(p, b, a) < TWO_64)
    && (forall p :: p in m.pools ==> p.amplifier > 0)
  }

  predicate Joins(p: Pool, s: Token, d: Token) {
    (s == p.token0 && d == p.token1) || (s == p.token1 && d == p.token0)
  }

  ghost predicate Traded(m: Market, s: Token, d: Token) {
    exists p :: p in m.pools && Joins(p, s, d)
  }

  /** A pool that sells token `d` is traded with the greatest part of the amount that leaves the hop's fee covered. */
  ghost predicate Pays(m: Market, pool: Pool, d: Token, amount: nat, paid: nat) {
    exists x: nat :: IsNet(amount, m.feeRateBPS, x) && paid == m.trade(pool, d == pool.token0, x)
  }

  /** What `pool` pays in token `d` for `amount`, the hop fee taken first. */
  function Receive(m: Market, pool: Pool, d: Token, amount: nat): (paid: nat)
    ensures amount < TWO_64 && m.feeRateBPS <= BPS ==> Pays(m, pool, d, amount, paid)
  {
    assert amount < TWO_64 && m.feeRateBPS <= BPS ==> IsNet(amount, m.feeRateBPS, Net(amount, m.feeRateBPS)) by {
      if amount < TWO_64 && m.feeRateBPS <= BPS { NetIsNet(amount, m.feeRateBPS); }
    }
    m.trade(pool, d == pool.token0, Net(amount, m.feeRateBPS))
  }

  lemma PaysOnlyThat(m: Market, pool: Pool, d: Token, amount: nat, paid: nat)
    requires amount < TWO_64 && m.feeRateBPS <= BPS && Pays(m, pool, d, amount, paid)
    ensures paid == Receive(m, pool, d, amount)
  {
    NetIsNet(amount, m.feeRateBPS);
  }

  datatype Hop = Hop(pool: Option<Pool>, receive: nat)

  /** The first pool of the list with the largest positive payout; none, and 0, if all pay nothing. */
  function BestHop(m: Market, pools: seq<Pool>, s: Token, d: Token, amount: nat): Hop {
    if pools == [] then Hop(None, 0)
    else
      var best := BestHop(m, pools[..|pools| - 1], s, d, amount);
      var p := pools[|pools| - 1];
      if Joins(p, s, d) && Receive(m, p, d, amount) > best.receive
      then Hop(Some(p), Receive(m, p, d, amount))
      else best
  }

  datatype Route = Route(pools: seq<Option<Pool>>, receive: nat)

  /** The best hop along each step of a token path. */
  function Greedy(m: Market, path: seq<Token>, amount: nat): Route {
    if |path| < 2 then Route([], amount)
    else
      var hop := BestHop(m, m.pools, path[0], path[1], amount);
      var rest := Greedy(m, path[1..], hop.receive);
      Route([hop.pool] + rest.pools, rest.receive)
  }

  /** The first path with the largest positive payout; a path without hops always replaces. */
  function BestRoute(m: Market, paths: seq<seq<Token>>, amount: nat): Route {
    if paths == [] then Route([], 0)
    else
      var best := BestRoute(m, paths[..|paths| - 1], amount);
      var r := Greedy(m, paths[|paths| - 1], amount);
      if r.pools == [] || r.receive > best.receive then r else best
  }

  /** A pool's virtual reserves, scaled down by its amplifier: the greatest that times the amplifier is no more than they are. */
  function Liquidity(virtualAmount: nat, amplifier: nat): (r: nat)
    requires amplifier > 0
    ensures r * amplifier <= virtualAmount * 10000 < (r + 1) * amplifier
  {
    var r := virtualAmount * BASE_AMPLIFIER / amplifier;
    assert virtualAmount * BASE_AMPLIFIER == r * amplifier + virtualAmount * BASE_AMPLIFIER % amplifier;
    assert (r + 1) * amplifier == r * amplifier + amplifier;
    r
  }

  function SimplePools(pools: seq<Pool>): seq<PG.SimplePool> {
    seq(|pools|, i requires 0 <= i < |pools| => PG.SimplePool(pools[i].token0, pools[i].token1, 2 * i, 2 * i + 1))
  }

  function Liquidities(pools: seq<Pool>): seq<int>
    requires forall p :: p in pools ==> p.amplifier > 0
  {
    seq(2 * |pools|, k requires 0 <= k < 2 * |pools| =>
      var p := pools[k / 2]; Liquidity(if k % 2 == 0 then p.virtual0 else p.virtual1, p.amplifier))
  }

  function TokenGraph(m: Market): Graph
    requires forall p :: p in m.pools ==> p.amplifier > 0
  {
    PG.BuildGraph(SimplePools(m.pools), Liquidities(m.pools)).graph
  }

  /** Every simple token path within the hop limit, in search order. */
  function AllPaths(m: Market, maxHops: nat, src: Token, dst: Token): seq<seq<Token>>
    requires forall p :: p in m.pools ==> p.amplifier > 0
  {
    PathsFrom(TokenGraph(m), src, dst, {}, maxHops + 1)
  }

  function GoodTradePath(m: Market, maxHops: nat, src: Token, dst: Token, amount: nat): Route
    requires forall p :: p in m.pools ==> p.amplifier > 0
  {
    BestRoute(m, Take(AllPaths(m, maxHops, src, dst), MAX_PATHS), amount)
  }

  // ---------- the token paths ----------

  /** Consecutive tokens of `w` are traded by some pool. */
  ghost predicate IsTokenWalk(m: Market, w: seq<Token>, src: Token, dst: Token) {
    && w != [] && w[0] == src && w[|w| - 1] == dst && Distinct(w)
    && forall i {:trigger w[i]} :: 0 <= i < |w| - 1 ==> Traded(m, w[i], w[i + 1])
  }

  lemma TokenGraphEdges(m: Market, s: Token, d: Token)
    requires WellFormed(m)
    ensures HasEdge(TokenGraph(m), s, d) <==> Traded(m, s, d)
    ensures DistinctDestinations(TokenGraph(m))
  {
    hide PG.BuildGraph, HasEdge, DistinctDestinations;
    var sp := SimplePools(m.pools);
    PG.BuildGraphCorrect(sp, Liquidities(m.pools));
    if PG.Trades(sp, s, d) {
      var q :| q in sp && PG.Joins(q, s, d);
      var i :| 0 <= i < |sp| && sp[i] == q;
      assert m.pools[i] in m.pools && Joins(m.pools[i], s, d);
    }
    if p :| p in m.pools && Joins(p, s, d) {
      var i :| 0 <= i < |m.pools| && m.pools[i] == p;
      assert sp[i] in sp && PG.Joins(sp[i], s, d);
    }
  }

  lemma TokenWalksAreSimplePaths(m: Market, w: seq<Token>, src: Token, dst: Token)
    requires WellFormed(m)
    ensures IsTokenWalk(m, w, src, dst) <==> IsSimplePath(TokenGraph(m), w, src, dst)
  {
    forall i {:trigger w[i]} | 0 <= i < |w| - 1
      ensures HasEdge(TokenGraph(m), w[i], w[i + 1]) <==> Traded(m, w[i], w[i + 1])
    {
      TokenGraphEdges(m, w[i], w[i + 1]);
    }
  }

  /** The search space is exactly the simple walks over traded pairs within the hop limit, each listed once. */
  lemma AllPathsExact(m: Market, maxHops: nat, src: Token, dst: Token)
    requires WellFormed(m)
    ensures forall w :: w in AllPaths(m, maxHops, src, dst) <==>
              IsTokenWalk(m, w, src, dst) && |w| <= maxHops + 1
    ensures Distinct(AllPaths(m, maxHops, src, dst))
    ensures Ordered(TokenGraph(m), AllPaths(m, maxHops, src, dst))
  {
    var g := TokenGraph(m);
    forall w ensures w in AllPaths(m, maxHops, src, dst) <==> IsTokenWalk(m, w, src, dst) && |w| <= maxHops + 1 {
      PathsFromMembers(g, src, dst, {}, maxHops + 1, w);
      TokenWalksAreSimplePaths(m, w, src, dst);
    }
    TokenGraphEdges(m, src, dst);
    PathsFromOrdered(g, src, dst, {}, maxHops + 1);
    OrderedIsDistinct(g, AllPaths(m, maxHops, src, dst));
  }

  /** v is the scaled virtual reserve of s, the token paid in, in a pool of the pair. */
  ghost predicate SideHolds(p: Pool, s: Token, d: Token, v: int) {
    && p.amplifier > 0
    && exists reserve: nat ::
         && ((p.token0 == s && p.token1 == d && reserve == p.virtual0) || (p.token1 == s && p.token0 == d && reserve == p.virtual1))
         && v * p.amplifier <= reserve * 10000 < (v + 1) * p.amplifier
  }

  /** The greatest such reserve of the pair's pools. */
  ghost predicate IsPairDepth(m: Market, s: Token, d: Token, v: int) {
    && (exists p :: p in m.pools && SideHolds(p, s, d, v))
    && (forall p, u :: p in m.pools && SideHolds(p, s, d, u) ==> u <= v)
  }

  lemma SidesAgree(m: Market, i: nat, s: Token, d: Token, v: int)
    requires WellFormed(m) && i < |m.pools|
    ensures PG.OnSide(SimplePools(m.pools)[i], Liquidities(m.pools), s, d, v) <==> SideHolds(m.pools[i], s, d, v)
  {
    var p, q, vals := m.pools[i], SimplePools(m.pools)[i], Liquidities(m.pools);
    assert p in m.pools;
    assert vals[2 * i] == Liquidity(p.virtual0, p.amplifier) && vals[2 * i + 1] == Liquidity(p.virtual1, p.amplifier);
    if SideHolds(p, s, d, v) {
      var reserve: nat :| ((p.token0 == s && p.token1 == d && reserve == p.virtual0) || (p.token1 == s && p.token0 == d && reserve == p.virtual1))
                          && v * p.amplifier <= reserve * 10000 < (v + 1) * p.amplifier;
      OneFloor(v, Liquidity(reserve, p.amplifier), reserve * 10000, p.amplifier);
    }
  }

  lemma OneFloor(a: int, b: int, x: int, d: nat)
    requires d > 0 && a * d <= x < (a + 1) * d && b * d <= x < (b + 1) * d
    ensures a == b
  {
    if a < b { MulMono(a + 1, b, d); }
    if b < a { MulMono(b + 1, a, d); }
  }

  /** The search tries the neighbours of a token from the deepest pair to the shallowest. */
  lemma DeepestFirst(m: Market, s: Token, i: nat, j: nat) returns (u: int, v: int)
    requires WellFormed(m) && i < j < |Nodes(TokenGraph(m), s)|
    ensures var ns := Nodes(TokenGraph(m), s);
      IsPairDepth(m, s, ns[i].token, u) && IsPairDepth(m, s, ns[j].token, v) && u >= v
  {
    hide PG.BuildGraph, PG.IsDepth, IsPairDepth;
    var pools, vals := SimplePools(m.pools), Liquidities(m.pools);
    PG.BuildGraphCorrect(pools, vals);
    var b := PG.BuildGraph(pools, vals);
    var ns := Nodes(b.graph, s);
    assert ns[i] in ns && ns[j] in ns;
    u, v := b.vals[ns[i].liquidity], b.vals[ns[j].liquidity];
    DepthsAgree(m, s, ns[i].token, u);
    DepthsAgree(m, s, ns[j].token, v);
    assert PG.Descending(b.graph[s], b.vals);
  }

  lemma DepthsAgree(m: Market, s: Token, d: Token, v: int)
    requires WellFormed(m) && PG.IsDepth(SimplePools(m.pools), Liquidities(m.pools), s, d, v)
    ensures IsPairDepth(m, s, d, v)
  {
    hide PG.OnSide, SideHolds;
    var pools, vals := SimplePools(m.pools), Liquidities(m.pools);
    var q :| q in pools && PG.OnSide(q, vals, s, d, v);
    var i :| 0 <= i < |pools| && pools[i] == q;
    SidesAgree(m, i, s, d, v);
    assert m.pools[i] in m.pools;
    forall p, u | p in m.pools && SideHolds(p, s, d, u) ensures u <= v {
      var j :| 0 <= j < |m.pools| && m.pools[j] == p;
      SidesAgree(m, j, s, d, u);
      assert pools[j] in pools;
    }
  }

  // ---------- the best pool of a pair ----------

  /** The hop pays what its pool pays, and no pool of the pair pays more. */
  lemma {:induction false} BestHopCorrect(m: Market, pools: seq<Pool>, s: Token, d: Token, amount: nat)
    ensures var h := BestHop(m, pools, s, d, amount);
      && (forall p :: p in pools && Joins(p, s, d) ==> Receive(m, p, d, amount) <= h.receive)
      && (h.pool.Some? ==> h.pool.value in pools && Joins(h.pool.value, s, d)
                           && h.receive == Receive(m, h.pool.value, d, amount) > 0)
      && (h.pool.None? ==> h.receive == 0)
  {
    if pools != [] {
      var init := pools[..|pools| - 1];
      BestHopCorrect(m, init, s, d, amount);
      assert pools == init + [pools[|pools| - 1]];
    }
  }

  lemma {:induction false} BestHopBound(m: Market, pools: seq<Pool>, s: Token, d: Token, amount: nat)
    requires WellFormed(m)
    ensures BestHop(m, pools, s, d, amount).receive < TWO_64
  {
    if pools != [] { BestHopBound(m, pools[..|pools| - 1], s, d, amount); }
  }

  /**
   The pool chosen for a hop joins its tokens, pays what is received, no pool that joins
   them pays more, and none before it as much; without one nothing pays.
   */
  ghost predicate IsBestHop(m: Market, s: Token, d: Token, amount: nat, pool: Option<Pool>, paid: nat) {
    && (forall p, v: nat :: p in m.pools && Joins(p, s, d) && Pays(m, p, d, amount, v) ==> v <= paid)
    && (if pool.None? then paid == 0 else paid > 0 && exists i :: IsFirst(m, s, d, amount, pool.value, paid, i))
  }

  ghost predicate IsFirst(m: Market, s: Token, d: Token, amount: nat, pool: Pool, paid: nat, i: nat) {
    && i < |m.pools| && m.pools[i] == pool && Joins(pool, s, d) && Pays(m, pool, d, amount, paid)
    && forall j, v: nat :: 0 <= j < i && Joins(m.pools[j], s, d) && Pays(m, m.pools[j], d, amount, v) ==> v < paid
  }

  lemma {:induction false} BestHopFirst(m: Market, pools: seq<Pool>, s: Token, d: Token, amount: nat) returns (i: nat)
    ensures var h := BestHop(m, pools, s, d, amount);
      h.pool.Some? ==>
        && i < |pools| && pools[i] == h.pool.value
        && forall j :: 0 <= j < i && Joins(pools[j], s, d) ==> Receive(m, pools[j], d, amount) < h.receive
  {
    i := 0;
    if BestHop(m, pools, s, d, amount).pool.Some? {
      var n := |pools| - 1;
      BestHopCorrect(m, pools[..n], s, d, amount);
      if BestHop(m, pools, s, d, amount) == BestHop(m, pools[..n], s, d, amount) {
        i := BestHopFirst(m, pools[..n], s, d, amount);
        assert forall j :: 0 <= j < n ==> pools[..n][j] == pools[j];
      } else {
        i := n;
        assert forall j :: 0 <= j < n ==> pools[j] in pools[..n];
      }
    }
  }

  lemma BestHopIs(m: Market, s: Token, d: Token, amount: nat)
    requires amount < TWO_64 && m.feeRateBPS <= BPS
    ensures var h := BestHop(m, m.pools, s, d, amount); IsBestHop(m, s, d, amount, h.pool, h.receive)
  {
    hide Pays, Joins, Receive, BestHop;
    var h := BestHop(m, m.pools, s, d, amount);
    BestHopCorrect(m, m.pools, s, d, amount);
    forall p, v: nat | p in m.pools && Joins(p, s, d) && Pays(m, p, d, amount, v) ensures v <= h.receive {
      PaysOnlyThat(m, p, d, amount, v);
    }
    if h.pool.Some? {
      var i := BestHopFirst(m, m.pools, s, d, amount);
      forall j, v: nat | 0 <= j < i && Joins(m.pools[j], s, d) && Pays(m, m.pools[j], d, amount, v) ensures v < h.receive {
        PaysOnlyThat(m, m.pools[j], d, amount, v);
      }
      assert IsFirst(m, s, d, amount, h.pool.value, h.receive, i);
    }
  }

  // ---------- routes ----------

  /** Along the walk every hop is the best for what the hop before paid. */
  ghost predicate HopByHop(m: Market, w: seq<Token>, amounts: seq<nat>, pools: seq<Option<Pool>>) {
    && |amounts| == |w| == |pools| + 1
    && forall i {:trigger pools[i]} :: 0 <= i < |pools| ==> IsBestHop(m, w[i], w[i + 1], amounts[i], pools[i], amounts[i + 1])
  }

  lemma {:induction false} GreedyHops(m: Market, w: seq<Token>, amount: nat) returns (amounts: seq<nat>)
    requires WellFormed(m) && m.feeRateBPS <= BPS && amount < TWO_64 && w != []
    ensures var r := Greedy(m, w, amount);
      HopByHop(m, w, amounts, r.pools) && amounts[0] == amount && amounts[|w| - 1] == r.receive
  {
    hide IsBestHop, BestHop;
    if |w| == 1 {
      amounts := [amount];
    } else {
      var h := BestHop(m, m.pools, w[0], w[1], amount);
      BestHopIs(m, w[0], w[1], amount);
      BestHopBound(m, m.pools, w[0], w[1], amount);
      var rest := GreedyHops(m, w[1..], h.receive);
      amounts := [amount] + rest;
      var later := Greedy(m, w[1..], h.receive).pools;
      assert Greedy(m, w, amount).pools == [h.pool] + later;
      forall i | 0 <= i < |later| + 1 ensures IsBestHop(m, w[i], w[i + 1], amounts[i], ([h.pool] + later)[i], amounts[i + 1]) {
        if i > 0 { assert IsBestHop(m, w[1..][i - 1], w[1..][i], rest[i - 1], later[i - 1], rest[i]); }
      }
    }
  }

  /** `pools[i]` trades the i-th step of the walk. */
  ghost predicate Follows(m: Market, pools: seq<Pool>, w: seq<Token>) {
    && |w| == |pools| + 1
    && forall i {:trigger pools[i]} :: 0 <= i < |pools| ==> pools[i] in m.pools && Joins(pools[i], w[i], w[i + 1])
  }

  /** Trading `amount` through the pools, one after the other. */
  function Replay(m: Market, pools: seq<Pool>, w: seq<Token>, amount: nat): nat
    requires |w| == |pools| + 1
  {
    if pools == [] then amount
    else Replay(m, pools[1..], w[1..], Receive(m, pools[0], w[1], amount))
  }

  ghost predicate Monotone(m: Market) {
    forall p, b, x: nat, y: nat :: x <= y ==> m.trade(p, b, x) <= m.trade(p, b, y)
  }

  ghost predicate NothingForNothing(m: Market) {
    forall p, b :: m.trade(p, b, 0) == 0
  }

  lemma ReceiveMono(m: Market, p: Pool, d: Token, x: nat, y: nat)
    requires Monotone(m) && m.feeRateBPS <= BPS && x <= y < TWO_64
    ensures Receive(m, p, d, x) <= Receive(m, p, d, y)
  {
    NetMono(x, y, m.feeRateBPS);
  }

  /** Greedy choice along a walk beats every choice of pools along it, starting from no more. */
  lemma {:induction false} GreedyDominates(m: Market, pools: seq<Pool>, w: seq<Token>, x: nat, y: nat)
    requires WellFormed(m) && Monotone(m) && m.feeRateBPS <= BPS && x <= y < TWO_64
    requires Follows(m, pools, w)
    ensures Replay(m, pools, w, x) <= Greedy(m, w, y).receive
  {
    if pools != [] {
      var h := BestHop(m, m.pools, w[0], w[1], y);
      BestHopCorrect(m, m.pools, w[0], w[1], y);
      BestHopBound(m, m.pools, w[0], w[1], y);
      assert pools[0] in m.pools && Joins(pools[0], w[0], w[0 + 1]);
      ReceiveMono(m, pools[0], w[1], x, y);
      assert forall i :: 0 <= i < |pools[1..]| ==> pools[1..][i] == pools[i + 1];
      GreedyDominates(m, pools[1..], w[1..], Receive(m, pools[0], w[1], x), h.receive);
    }
  }

  lemma {:induction false} GreedyMono(m: Market, w: seq<Token>, x: nat, y: nat)
    requires WellFormed(m) && Monotone(m) && m.feeRateBPS <= BPS && x <= y < TWO_64
    ensures Greedy(m, w, x).receive <= Greedy(m, w, y).receive
  {
    if |w| >= 2 {
      var h, h' := BestHop(m, m.pools, w[0], w[1], x), BestHop(m, m.pools, w[0], w[1], y);
      BestHopCorrect(m, m.pools, w[0], w[1], x);
      BestHopCorrect(m, m.pools, w[0], w[1], y);
      BestHopBound(m, m.pools, w[0], w[1], y);
      if h.pool.Some? {
        ReceiveMono(m, h.pool.value, w[1], x, y);
      }
      GreedyMono(m, w[1..], h.receive, h'.receive);
    }
  }

  /** With nothing to trade, nothing is received. */
  lemma {:induction false} GreedyZero(m: Market, w: seq<Token>)
    requires NothingForNothing(m)
    ensures Greedy(m, w, 0).receive == 0
  {
    if |w| >= 2 {
      BestHopCorrect(m, m.pools, w[0], w[1], 0);
      assert Net(0, m.feeRateBPS) == 0;
      GreedyZero(m, w[1..]);
    }
  }

  ghost predicate AllChosen(r: seq<Option<Pool>>) {
    forall i :: 0 <= i < |r| ==> r[i].Some?
  }

  function Chosen(r: seq<Option<Pool>>): (ps: seq<Pool>)
    requires AllChosen(r)
    ensures |ps| == |r| && forall i :: 0 <= i < |r| ==> ps[i] == r[i].value
  {
    seq(|r|, i requires 0 <= i < |r| => r[i].value)
  }

  /** A path that pays anything names a pool at every hop, and those pools pay exactly that. */
  lemma {:induction false} GreedyReplays(m: Market, w: seq<Token>, amount: nat)
    requires NothingForNothing(m) && w != [] && Greedy(m, w, amount).receive > 0
    ensures var r := Greedy(m, w, amount);
      && AllChosen(r.pools) && Follows(m, Chosen(r.pools), w)
      && Replay(m, Chosen(r.pools), w, amount) == r.receive
  {
    if |w| >= 2 {
      var h := BestHop(m, m.pools, w[0], w[1], amount);
      BestHopCorrect(m, m.pools, w[0], w[1], amount);
      if h.pool.None? { GreedyZero(m, w[1..]); }
      GreedyReplays(m, w[1..], h.receive);
      var r := Greedy(m, w, amount);
      var rest := Greedy(m, w[1..], h.receive);
      assert r.pools == [h.pool] + rest.pools;
      assert AllChosen(r.pools) by {
        forall i | 0 <= i < |r.pools| ensures r.pools[i].Some? {
          if i > 0 { assert r.pools[i] == rest.pools[i - 1]; }
        }
      }
      var ps := Chosen(r.pools);
      assert ps[1..] == Chosen(rest.pools);
      forall i | 0 <= i < |ps| ensures ps[i] in m.pools && Joins(ps[i], w[i], w[i + 1]) {
        if i > 0 { assert ps[i] == ps[1..][i - 1] && Chosen(rest.pools)[i - 1] in m.pools; }
      }
    }
  }

  ghost predicate HaveHops(paths: seq<seq<Token>>) {
    forall w :: w in paths ==> |w| >= 2
  }

  /** The best route is one of the paths' greedy routes, or nothing is paid; no path pays more. */
  lemma {:induction false} BestRouteCorrect(m: Market, paths: seq<seq<Token>>, amount: nat)
    requires HaveHops(paths)
    ensures var r := BestRoute(m, paths, amount);
      && (forall w :: w in paths ==> Greedy(m, w, amount).receive <= r.receive)
      && (r.receive > 0 ==> exists w :: w in paths && r == Greedy(m, w, amount))
  {
    if paths != [] {
      var init := paths[..|paths| - 1];
      BestRouteCorrect(m, init, amount);
      assert paths == init + [paths[|paths| - 1]];
      assert paths[|paths| - 1] in paths;
    }
  }

  /** Trading through pools along a walk, hop by hop. */
  ghost predicate PaysAlong(m: Market, pools: seq<Pool>, w: seq<Token>, amounts: seq<nat>) {
    && |amounts| == |w| == |pools| + 1
    && forall i {:trigger pools[i]} :: 0 <= i < |pools| ==> Pays(m, pools[i], w[i + 1], amounts[i], amounts[i + 1])
  }

  lemma {:induction false} ReplayIsPaid(m: Market, pools: seq<Pool>, w: seq<Token>, amounts: seq<nat>)
    requires WellFormed(m) && m.feeRateBPS <= BPS && PaysAlong(m, pools, w, amounts) && amounts[0] < TWO_64
    ensures Replay(m, pools, w, amounts[0]) == amounts[|pools|]
  {
    hide Pays, IsNet;
    if pools != [] {
      assert Pays(m, pools[0], w[0 + 1], amounts[0], amounts[0 + 1]);
      PaysOnlyThat(m, pools[0], w[1], amounts[0], amounts[1]);
      assert forall i :: 0 <= i < |pools[1..]| ==> pools[1..][i] == pools[i + 1];
      ReplayIsPaid(m, pools[1..], w[1..], amounts[1..]);
    }
  }

  // ---------- main results ----------

  lemma PathsHaveHops(m: Market, maxHops: nat, src: Token, dst: Token)
    requires WellFormed(m) && src != dst
    ensures HaveHops(Take(AllPaths(m, maxHops, src, dst), MAX_PATHS))
  {
    AllPathsExact(m, maxHops, src, dst);
    var all := AllPaths(m, maxHops, src, dst);
    forall w | w in Take(all, MAX_PATHS) ensures |w| >= 2 {
      assert w in all;
      assert IsTokenWalk(m, w, src, dst);
    }
  }

  /**
   No route of pools pays more than the route found: the pools may be any, one
   per step of any simple walk within the hop limit, when there are at most
   twenty such walks, and of any of the first twenty when there are more.
   */
  lemma GoodTradePathIsBest(m: Market, maxHops: nat, src: Token, dst: Token, amount: nat, pools: seq<Pool>, w: seq<Token>)
    requires WellFormed(m) && Monotone(m) && m.feeRateBPS <= BPS && amount < TWO_64 && src != dst
    requires |AllPaths(m, maxHops, src, dst)| <= MAX_PATHS || w in Take(AllPaths(m, maxHops, src, dst), MAX_PATHS)
    requires Follows(m, pools, w) && Distinct(w) && w[0] == src && w[|w| - 1] == dst && |pools| <= maxHops
    ensures Replay(m, pools, w, amount) <= GoodTradePath(m, maxHops, src, dst, amount).receive
  {
    PathsHaveHops(m, maxHops, src, dst);
    AllPathsExact(m, maxHops, src, dst);
    forall i | 0 <= i < |w| - 1 ensures Traded(m, w[i], w[i + 1]) {
      assert pools[i] in m.pools && Joins(pools[i], w[i], w[i + 1]);
    }
    assert IsTokenWalk(m, w, src, dst);
    BestRouteCorrect(m, Take(AllPaths(m, maxHops, src, dst), MAX_PATHS), amount);
    GreedyDominates(m, pools, w, amount, amount);
  }

  /** A route that pays anything is a chain of pools from source to destination, and trading through it pays exactly that. */
  lemma GoodTradePathReplays(m: Market, maxHops: nat, src: Token, dst: Token, amount: nat) returns (w: seq<Token>)
    requires WellFormed(m) && NothingForNothing(m) && src != dst
    requires GoodTradePath(m, maxHops, src, dst, amount).receive > 0
    ensures var r := GoodTradePath(m, maxHops, src, dst, amount);
      && AllChosen(r.pools) && Follows(m, Chosen(r.pools), w)
      && IsTokenWalk(m, w, src, dst) && |r.pools| <= maxHops
      && Replay(m, Chosen(r.pools), w, amount) == r.receive
  {
    var all := AllPaths(m, maxHops, src, dst);
    PathsHaveHops(m, maxHops, src, dst);
    BestRouteCorrect(m, Take(all, MAX_PATHS), amount);
    w :| w in Take(all, MAX_PATHS) && GoodTradePath(m, maxHops, src, dst, amount) == Greedy(m, w, amount);
    assert w in all;
    AllPathsExact(m, maxHops, src, dst);
    GreedyReplays(m, w, amount);
  }

  lemma {:induction false} BestRouteMono(m: Market, paths: seq<seq<Token>>, x: nat, y: nat)
    requires WellFormed(m) && Monotone(m) && m.feeRateBPS <= BPS && x <= y < TWO_64 && HaveHops(paths)
    ensures BestRoute(m, paths, x).receive <= BestRoute(m, paths, y).receive
  {
    BestRouteCorrect(m, paths, x);
    BestRouteCorrect(m, paths, y);
    if BestRoute(m, paths, x).receive > 0 {
      var w :| w in paths && BestRoute(m, paths, x) == Greedy(m, w, x);
      GreedyMono(m, w, x, y);
    }
  }

  /** Selling more never pays less, however many paths there are. */
  lemma GoodTradePathMono(m: Market, maxHops: nat, src: Token, dst: Token, x: nat, y: nat)
    requires WellFormed(m) && Monotone(m) && m.feeRateBPS <= BPS && x <= y < TWO_64 && src != dst
    ensures GoodTradePath(m, maxHops, src, dst, x).receive <= GoodTradePath(m, maxHops, src, dst, y).receive
  {
    PathsHaveHops(m, maxHops, src, dst);
    BestRouteMono(m, Take(AllPaths(m, maxHops, src, dst), MAX_PATHS), x, y);
  }

  /** A route found: along a simple walk within the hop limit, hop by hop the best, from the amount sold to what is received. */
  ghost predicate IsAnswer(m: Market, maxHops: nat, src: Token, dst: Token, amount: nat, pools: seq<Option<Pool>>, paid: nat) {
    exists w, amounts ::
      && HopByHop(m, w, amounts, pools) && IsTokenWalk(m, w, src, dst) && |pools| <= maxHops
      && amounts[0] == amount && amounts[|pools|] == paid
  }

  lemma GoodTradePathIsAnswer(m: Market, maxHops: nat, src: Token, dst: Token, amount: nat)
    requires WellFormed(m) && m.feeRateBPS <= BPS && amount < TWO_64 && src != dst
    requires GoodTradePath(m, maxHops, src, dst, amount).receive > 0
    ensures var r := GoodTradePath(m, maxHops, src, dst, amount); IsAnswer(m, maxHops, src, dst, amount, r.pools, r.receive)
  {
    hide HopByHop, Greedy;
    var all := AllPaths(m, maxHops, src, dst);
    PathsHaveHops(m, maxHops, src, dst);
    BestRouteCorrect(m, Take(all, MAX_PATHS), amount);
    var w :| w in Take(all, MAX_PATHS) && GoodTradePath(m, maxHops, src, dst, amount) == Greedy(m, w, amount);
    assert w in all;
    AllPathsExact(m, maxHops, src, dst);
    var amounts := GreedyHops(m, w, amount);
    HopCount(m, w, amounts, Greedy(m, w, amount).pools);
  }

  lemma HopCount(m: Market, w: seq<Token>, amounts: seq<nat>, pools: seq<Option<Pool>>)
    requires HopByHop(m, w, amounts, pools)
    ensures |amounts| == |w| == |pools| + 1
  {
  }

  /** And no chain of pools pays more, told hop by hop. */
  lemma NoRoutePaysMore(m: Market, maxHops: nat, src: Token, dst: Token, pools: seq<Pool>, w: seq<Token>, amounts: seq<nat>)
    requires WellFormed(m) && Monotone(m) && m.feeRateBPS <= BPS && src != dst
    requires |AllPaths(m, maxHops, src, dst)| <= MAX_PATHS || w in Take(AllPaths(m, maxHops, src, dst), MAX_PATHS)
    requires Follows(m, pools, w) && Distinct(w) && w[0] == src && w[|w| - 1] == dst && |pools| <= maxHops
    requires PaysAlong(m, pools, w, amounts) && amounts[0] < TWO_64
    ensures amounts[|pools|] <= GoodTradePath(m, maxHops, src, dst, amounts[0]).receive
  {
    ReplayIsPaid(m, pools, w, amounts);
    GoodTradePathIsBest(m, maxHops, src, dst, amounts[0], pools, w);
  }
}
