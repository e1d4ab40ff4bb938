/**
 The path finder itself (pdexv3/pathfinder/pdexv3estimatetrade.go): the graph,
 the search and the choice of pools in the imperative form of the source, each
 proved to compute the function of the same meaning in `PoolGraph`,
 `SimplePaths` and `TradePath`.
 */
module Pathfinder {
  import opened Types
  import opened FeeMath
  import opened SimplePaths
  import PG = PoolGraph
  import TP = TradePath

  /** The tokens on the current path and the paths found so far, shared by all levels of the search. */
  class Search {
    var visited: map<Token, bool>
    var allPaths: seq<seq<Token>>

    constructor ()
      ensures visited == map[] && allPaths == []
    {
      visited, allPaths := map[], [];
    }

    /** A missing entry reads as false. */
    predicate IsVisited(t: Token)
      reads this
    {
      t in visited && visited[t]
    }

    ghost function Marked(): set<Token>
      reads this
    {
      set t | t in visited && visited[t]
    }
  }

  class PriceCalculator {
    var graph: Graph

    constructor ()
      ensures graph == map[]
    {
      graph := map[];
    }

    method AddEdge(src: Token, dst: Token, ptr: nat, liq: array<int>)
      requires ptr < liq.Length
      requires forall n :: n in Nodes(graph, src) ==> n.liquidity < liq.Length
      modifies this, liq
      ensures PG.Built(graph, liq[..]) == PG.AddEdge(PG.Built(old(graph), old(liq[..])), PG.Edge(src, dst), ptr)
    {
      var dest := Node(dst, ptr);
      if src !in graph {
        graph := graph[src := [dest]];
        assert graph[src] == Nodes(old(graph), src) + [dest];
      } else {
        var isExisted := false;
        var i := 0;
        while i < |graph[src]|
          invariant 0 <= i <= |graph[src]| && !isExisted
          invariant i + PG.Position(graph[src][i..], dst) == PG.Position(graph[src], dst)
        {
          var existed := graph[src][i];
          if existed.token == dst {
            if liq[existed.liquidity] < liq[ptr] {
              liq[existed.liquidity] := liq[ptr];
            }
            isExisted := true;
            break;
          }
          i := i + 1;
        }
        if !isExisted {
          graph := graph[src := graph[src] + [dest]];
        }
      }
    }

    /** The two directed edges of one pool, numbers `n` and `n + 1` of `edges`. */
    method AddPool(pool: PG.SimplePool, liq: array<int>, ghost edges: seq<PG.Edge>, ghost vals: seq<int>, ghost n: nat)
      requires n + 1 < |edges| == |vals| == liq.Length && pool.liq0 == n && pool.liq1 == n + 1
      requires edges[n] == PG.EdgeOf(pool, true) && edges[n + 1] == PG.EdgeOf(pool, false)
      requires PG.Built(graph, liq[..]) == PG.AddEdges(edges, vals, n)
      modifies this, liq
      ensures PG.Built(graph, liq[..]) == PG.AddEdges(edges, vals, n + 2)
    {
      OwnedInRange(edges, vals, n, PG.Built(graph, liq[..]));
      AddEdge(pool.token0, pool.token1, pool.liq0, liq);
      OwnedInRange(edges, vals, n + 1, PG.Built(graph, liq[..]));
      AddEdge(pool.token1, pool.token0, pool.liq1, liq);
    }

    method BuildGraph(pools: seq<PG.SimplePool>, liq: array<int>)
      requires PG.Allocated(pools, liq.Length)
      modifies this, liq
      ensures PG.Built(graph, liq[..]) == PG.BuildGraph(pools, old(liq[..]))
    {
      hide PG.AddEdges, PG.EdgeOf, PG.SortAll;
      graph := map[];
      NoEdges(pools, liq[..]);
      ghost var edges := PG.Edges(pools);
      ghost var vals := liq[..];
      var i := 0;
      while i < |pools|
        invariant 0 <= i <= |pools|
        invariant PG.Built(graph, liq[..]) == PG.AddEdges(edges, vals, 2 * i)
      {
        assert edges[2 * i] == PG.EdgeOf(pools[i], true) && edges[2 * i + 1] == PG.EdgeOf(pools[i], false);
        AddPool(pools[i], liq, edges, vals, 2 * i);
        i := i + 1;
      }
      SortByLiquidity(liq);
    }

    /** Sorts every adjacency list by descending liquidity. */
    method SortByLiquidity(liq: array<int>)
      modifies this
      ensures graph == PG.SortAll(PG.Built(old(graph), liq[..]))
    {
      var vals := liq[..];
      ghost var unsorted := graph;
      var todo := graph.Keys;
      while todo != {}
        invariant todo <= graph.Keys == unsorted.Keys
        invariant forall t :: t in graph ==>
                    graph[t] == if t in todo then unsorted[t] else PG.SortDesc(unsorted[t], vals)
      {
        var t :| t in todo;
        graph := graph[t := PG.SortDesc(graph[t], vals)];
        todo := todo - {t};
      }
      assert graph == PG.SortAll(PG.Built(unsorted, vals));
    }

    /** The first twenty simple paths in the order of the adjacency lists. */
    method FindPaths(maxPathLen: nat, pools: seq<PG.SimplePool>, liq: array<int>, src: Token, dst: Token)
      returns (paths: seq<seq<Token>>)
      requires PG.Allocated(pools, liq.Length)
      modifies this, liq
      ensures graph == PG.BuildGraph(pools, old(liq[..])).graph
      ensures paths == Take(PathsFrom(graph, src, dst, {}, maxPathLen), TP.MAX_PATHS)
    {
      hide Take, PathsFrom, PG.BuildGraph;
      BuildGraph(pools, liq);
      var search := new Search();
      var todo := graph.Keys;
      while todo != {}
        invariant search.Marked() == {} && search.allPaths == []
        modifies search
      {
        var t :| t in todo;
        search.visited := search.visited[t := false];
        todo := todo - {t};
      }
      assert src !in search.Marked();
      FindPath(maxPathLen, src, dst, search, []);
      paths := search.allPaths;
      ghost var all := PathsFrom(graph, src, dst, {}, maxPathLen);
      assert [] + PrefixAll([], all) == all by {
        assert forall p: seq<Token> :: [] + p == p;
      }
    }

    /**
     Appends the paths that extend `path` through `src`, up to the cap, and
     leaves the marks as they were.
     */
    method FindPath(maxPathLen: nat, src: Token, dst: Token, search: Search, path: seq<Token>)
      requires !search.IsVisited(src)
      requires |search.allPaths| <= TP.MAX_PATHS && |path| <= maxPathLen
      modifies search
      ensures search.Marked() == old(search.Marked())
      ensures search.allPaths ==
              Take(old(search.allPaths) + PrefixAll(path, PathsFrom(graph, src, dst, old(search.Marked()), maxPathLen - |path|)),
                   TP.MAX_PATHS)
      decreases maxPathLen - |path|
    {
      hide Take, PathsFrom, PathsVia, PrefixAll;
      ghost var marked := search.Marked();
      ghost var room := maxPathLen - |path|;
      ghost var all := PrefixAll(path, PathsFrom(graph, src, dst, marked, room));
      TakeBounds(search.allPaths, all, TP.MAX_PATHS);
      if |search.allPaths| == TP.MAX_PATHS {
        return;
      }
      var here := path + [src];
      search.visited := search.visited[src := true];
      assert search.Marked() == marked + {src};
      PathsFromCases(graph, src, dst, marked, room, path);
      if src == dst {
        search.allPaths := search.allPaths + [here];
        TakeBounds(search.allPaths, [], TP.MAX_PATHS);
      } else if |here| < maxPathLen {
        var nodes := if src in graph then graph[src] else [];
        ghost var goal := Take(search.allPaths + all, TP.MAX_PATHS);
        var i := 0;
        assert nodes[0..] == nodes;
        while i < |nodes|
          invariant 0 <= i <= |nodes| && |search.allPaths| <= TP.MAX_PATHS
          invariant search.Marked() == marked + {src}
          invariant Take(search.allPaths + PrefixAll(here, PathsVia(graph, nodes[i..], dst, marked + {src}, room - 1)), TP.MAX_PATHS)
                 == goal
        {
          var next := nodes[i].token;
          ghost var rest := PathsVia(graph, nodes[i + 1..], dst, marked + {src}, room - 1);
          PathsViaStep(graph, nodes[i..], dst, marked + {src}, room - 1);
          assert nodes[i..][1..] == nodes[i + 1..];
          assert search.IsVisited(next) <==> next in search.Marked();
          if !search.IsVisited(next) {
            ghost var found := PathsFrom(graph, next, dst, marked + {src}, room - 1);
            TakeBounds(search.allPaths, PrefixAll(here, found), TP.MAX_PATHS);
            TakeMore(search.allPaths, PrefixAll(here, found), PrefixAll(here, rest), TP.MAX_PATHS);
            PrefixSum(here, found, rest);
            FindPath(maxPathLen, next, dst, search, here);
          }
          i := i + 1;
        }
        PathsViaStep(graph, nodes[i..], dst, marked + {src}, room - 1);
        TakeBounds(search.allPaths, [], TP.MAX_PATHS);
      } else {
        TakeBounds(search.allPaths, [], TP.MAX_PATHS);
      }
      search.visited := search.visited[src := false];
      assert src !in marked;
      assert search.Marked() == marked;
    }
  }

  lemma NoEdges(pools: seq<PG.SimplePool>, vals: seq<int>)
    ensures PG.AddEdges(PG.Edges(pools), vals, 0) == PG.Built(map[], vals)
  {
  }

  lemma TakeBounds<T>(a: seq<T>, b: seq<T>, n: nat)
    requires |a| <= n
    ensures |Take(a + b, n)| <= n
    ensures |a| == n || b == [] ==> Take(a + b, n) == a
    ensures |a + b| <= n ==> Take(a + b, n) == a + b
  {
  }

  lemma PathsFromCases(g: Graph, at: Token, dst: Token, seen: set<Token>, room: nat, path: seq<Token>)
    ensures var ps := PrefixAll(path, PathsFrom(g, at, dst, seen, room));
      if at == dst then ps == [path + [at]]
      else if room <= 1 then ps == []
      else ps == PrefixAll(path + [at], PathsVia(g, Nodes(g, at), dst, seen + {at}, room - 1))
  {
    if at != dst && room > 1 {
      PrefixTwice(path, at, PathsVia(g, Nodes(g, at), dst, seen + {at}, room - 1));
    }
  }

  lemma PathsViaStep(g: Graph, ns: seq<Node>, dst: Token, seen: set<Token>, room: nat)
    ensures ns == [] ==> PathsVia(g, ns, dst, seen, room) == [] && forall p :: PrefixAll(p, PathsVia(g, ns, dst, seen, room)) == []
    ensures ns != [] && ns[0].token in seen ==> PathsVia(g, ns, dst, seen, room) == PathsVia(g, ns[1..], dst, seen, room)
    ensures ns != [] && ns[0].token !in seen ==>
              PathsVia(g, ns, dst, seen, room) == PathsFrom(g, ns[0].token, dst, seen, room) + PathsVia(g, ns[1..], dst, seen, room)
  {
  }

  lemma OwnedInRange(edges: seq<PG.Edge>, vals: seq<int>, n: nat, b: PG.Built)
    requires n <= |edges| == |vals| && b == PG.AddEdges(edges, vals, n)
    ensures forall s, node :: node in Nodes(b.graph, s) ==> node.liquidity < |vals|
  {
    PG.AddEdgesInv(edges, vals, n);
    forall s, node: Node | node in Nodes(b.graph, s) ensures node.liquidity < |vals| {
      assert PG.Owned(edges, n, s, b.graph[s]);
      assert PG.Offers(edges, n, node.liquidity, s, node.token);
    }
  }

  lemma PrefixTwice(path: seq<Token>, src: Token, ps: seq<seq<Token>>)
    ensures PrefixAll(path, PrefixAll([src], ps)) == PrefixAll(path + [src], ps)
  {
    forall i | 0 <= i < |ps| ensures path + ([src] + ps[i]) == (path + [src]) + ps[i] {}
  }

  lemma PrefixSum(path: seq<Token>, ps: seq<seq<Token>>, qs: seq<seq<Token>>)
    ensures PrefixAll(path, ps + qs) == PrefixAll(path, ps) + PrefixAll(path, qs)
  {
  }

  lemma TakeMore<T>(a: seq<T>, b: seq<T>, c: seq<T>, n: nat)
    ensures Take(Take(a + b, n) + c, n) == Take(a + (b + c), n)
  {
    assert a + (b + c) == (a + b) + c;
  }

  /** The best pool for one hop. */
  method ChooseBestPoolFromAPair(m: TP.Market, src: Token, dst: Token, sellAmt: nat) returns (chosen: Option<TP.Pool>, maxReceive: nat)
    ensures TP.Hop(chosen, maxReceive) == TP.BestHop(m, m.pools, src, dst, sellAmt)
    ensures sellAmt < TWO_64 && m.feeRateBPS <= BPS ==> TP.IsBestHop(m, src, dst, sellAmt, chosen, maxReceive)
  {
    hide TP.IsBestHop;
    if sellAmt < TWO_64 && m.feeRateBPS <= BPS {
      TP.BestHopIs(m, src, dst, sellAmt);
    }
    maxReceive, chosen := 0, None;
    var i := 0;
    while i < |m.pools|
      invariant 0 <= i <= |m.pools|
      invariant TP.Hop(chosen, maxReceive) == TP.BestHop(m, m.pools[..i], src, dst, sellAmt)
    {
      var pool := m.pools[i];
      assert m.pools[..i + 1][..i] == m.pools[..i];
      if TP.Joins(pool, src, dst) {
        var numerator := sellAmt * m.feeRateBPS;
        var fee := numerator / BPS;
        if numerator % BPS != 0 {
          fee := fee + 1;
        }
        var receive := m.trade(pool, dst == pool.token0, (sellAmt - fee % TWO_64) % TWO_64);
        if receive > maxReceive {
          maxReceive, chosen := receive, Some(pool);
        }
      }
      i := i + 1;
    }
    assert m.pools[..|m.pools|] == m.pools;
  }

  method FindGoodTradePath(m: TP.Market, maxHops: nat, src: Token, dst: Token, originalSellAmount: nat)
    returns (chosenPath: seq<Option<TP.Pool>>, maxReceive: nat)
    requires forall p :: p in m.pools ==> p.amplifier > 0
    ensures TP.Route(chosenPath, maxReceive) == TP.GoodTradePath(m, maxHops, src, dst, originalSellAmount)
    ensures TP.WellFormed(m) && m.feeRateBPS <= BPS && originalSellAmount < TWO_64 && src != dst && maxReceive > 0 ==>
              TP.IsAnswer(m, maxHops, src, dst, originalSellAmount, chosenPath, maxReceive)
  {
    hide TP.IsAnswer, TP.WellFormed, TP.Greedy, PathsFrom, Take, PG.BuildGraph;
    GoodTradePathAnswers(m, maxHops, src, dst, originalSellAmount);
    var pc := new PriceCalculator();
    var liq := new int[2 * |m.pools|];
    var simplePools: seq<PG.SimplePool> := [];
    var i := 0;
    while i < |m.pools|
      invariant 0 <= i <= |m.pools|
      invariant simplePools == TP.SimplePools(m.pools)[..i]
      invariant forall k :: 0 <= k < 2 * i ==> liq[k] == TP.Liquidities(m.pools)[k]
    {
      var pool := m.pools[i];
      liq[2 * i] := pool.virtual0 * TP.BASE_AMPLIFIER / pool.amplifier;
      liq[2 * i + 1] := pool.virtual1 * TP.BASE_AMPLIFIER / pool.amplifier;
      simplePools := simplePools + [PG.SimplePool(pool.token0, pool.token1, 2 * i, 2 * i + 1)];
      i := i + 1;
    }
    assert simplePools == TP.SimplePools(m.pools);
    assert liq[..] == TP.Liquidities(m.pools);
    var allPaths := pc.FindPaths(maxHops + 1, simplePools, liq, src, dst);
    if |allPaths| == 0 {
      return [], 0;
    }
    maxReceive, chosenPath := 0, [];
    var k := 0;
    while k < |allPaths|
      invariant 0 <= k <= |allPaths|
      invariant TP.Route(chosenPath, maxReceive) == TP.BestRoute(m, allPaths[..k], originalSellAmount)
    {
      var path := allPaths[k];
      assert allPaths[..k + 1][..k] == allPaths[..k];
      var pathByPool, sellAmt := FollowPath(m, path, originalSellAmount);
      if |pathByPool| == 0 || sellAmt > maxReceive {
        maxReceive, chosenPath := sellAmt, pathByPool;
      }
      k := k + 1;
    }
    assert allPaths[..|allPaths|] == allPaths;
  }

  lemma GoodTradePathAnswers(m: TP.Market, maxHops: nat, src: Token, dst: Token, amount: nat)
    requires forall p :: p in m.pools ==> p.amplifier > 0
    ensures var r := TP.GoodTradePath(m, maxHops, src, dst, amount);
      TP.WellFormed(m) && m.feeRateBPS <= BPS && amount < TWO_64 && src != dst && r.receive > 0 ==>
        TP.IsAnswer(m, maxHops, src, dst, amount, r.pools, r.receive)
  {
    hide TP.IsAnswer, TP.GoodTradePath;
    if TP.WellFormed(m) && m.feeRateBPS <= BPS && amount < TWO_64 && src != dst && TP.GoodTradePath(m, maxHops, src, dst, amount).receive > 0 {
      TP.GoodTradePathIsAnswer(m, maxHops, src, dst, amount);
    }
  }

  /** The inner loop of FindGoodTradePath: the best pool at each step, paid for with what the step before received. */
  method FollowPath(m: TP.Market, path: seq<Token>, amount: nat) returns (pathByPool: seq<Option<TP.Pool>>, sellAmt: nat)
    ensures TP.Route(pathByPool, sellAmt) == TP.Greedy(m, path, amount)
  {
    pathByPool, sellAmt := [], amount;
    var i := 0;
    while i < |path| - 1
      invariant i == 0 || 0 < i < |path|
      invariant var rest := TP.Greedy(m, path[i..], sellAmt);
                TP.Route(pathByPool + rest.pools, rest.receive) == TP.Greedy(m, path, amount)
    {
      ghost var before := TP.Greedy(m, path[i..], sellAmt);
      assert path[i..][1..] == path[i + 1..];
      var pool, receive := ChooseBestPoolFromAPair(m, path[i], path[i + 1], sellAmt);
      ghost var rest := TP.Greedy(m, path[i + 1..], receive);
      assert before.pools == [pool] + rest.pools && before.receive == rest.receive;
      assert pathByPool + before.pools == (pathByPool + [pool]) + rest.pools;
      sellAmt := receive;
      pathByPool := pathByPool + [pool];
      i := i + 1;
    }
    assert pathByPool + [] == pathByPool;
  }
}
