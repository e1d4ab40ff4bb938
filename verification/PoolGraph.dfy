/**
 The liquidity graph of a set of pools (pdexv3/pathfinder/pdexv3estimatetrade.go,
 addEdge and buildGraph), as a function of the pools and of the liquidity values.
 A `*big.Int` is an index into the sequence of liquidity values, so that an
 overwrite through one pointer is seen through every copy of that pointer.
 */
module PoolGraph {
  import opened Types
  import opened SimplePaths

  /** A pool, reduced to its tokens and the pointers to the liquidity on each side. */
  datatype SimplePool = SimplePool(token0: Token, token1: Token, liq0: nat, liq1: nat)

  datatype Edge = Edge(src: Token, dst: Token)

  /** The graph with the liquidity values its nodes point to. */
  datatype Built = Built(graph: Graph, vals: seq<int>)

  /** Every liquidity value is allocated for one side of one pool. */
  ghost predicate Allocated(pools: seq<SimplePool>, count: nat) {
    && count == 2 * |pools|
    && forall i {:trigger pools[i]} :: 0 <= i < |pools| ==> pools[i].liq0 == 2 * i && pools[i].liq1 == 2 * i + 1
  }

  /** The directed edges in the order they are added; edge `k` owns liquidity value `k`. */
  function Edges(pools: seq<SimplePool>): seq<Edge> {
    seq(2 * |pools|, k requires 0 <= k < 2 * |pools| => EdgeOf(pools[k / 2], k % 2 == 0))
  }

  function EdgeOf(p: SimplePool, forward: bool): Edge {
    if forward then Edge(p.token0, p.token1) else Edge(p.token1, p.token0)
  }

  /** The first position of `dst` in an adjacency list, or its length. */
  function Position(ns: seq<Node>, dst: Token): (k: nat)
    ensures k <= |ns|
    ensures forall j :: 0 <= j < k ==> ns[j].token != dst
    ensures k < |ns| ==> ns[k].token == dst
  {
    if ns == [] || ns[0].token == dst then 0 else 1 + Position(ns[1..], dst)
  }

  function Value(vals: seq<int>, ptr: nat): int {
    if ptr < |vals| then vals[ptr] else 0
  }

  /** A new destination is appended; a known one keeps its pointer, and the value behind it is raised. */
  function AddEdge(b: Built, e: Edge, ptr: nat): Built {
    var ns := Nodes(b.graph, e.src);
    var k := Position(ns, e.dst);
    if k == |ns| then b.(graph := b.graph[e.src := ns + [Node(e.dst, ptr)]])
    else if ns[k].liquidity < |b.vals| && b.vals[ns[k].liquidity] < Value(b.vals, ptr)
    then b.(vals := b.vals[ns[k].liquidity := Value(b.vals, ptr)])
    else b
  }

  function AddEdges(edges: seq<Edge>, vals: seq<int>, n: nat): Built
    requires n <= |edges|
  {
    if n == 0 then Built(map[], vals) else AddEdge(AddEdges(edges, vals, n - 1), edges[n - 1], n - 1)
  }

  /** `sort.SliceStable` by descending liquidity. */
  function SortDesc(ns: seq<Node>, vals: seq<int>): seq<Node> {
    if ns == [] then [] else InsertDesc(ns[0], SortDesc(ns[1..], vals), vals)
  }

  function InsertDesc(n: Node, ns: seq<Node>, vals: seq<int>): seq<Node> {
    if ns == [] || Value(vals, ns[0].liquidity) <= Value(vals, n.liquidity) then [n] + ns
    else [ns[0]] + InsertDesc(n, ns[1..], vals)
  }

  function SortAll(b: Built): Graph {
    map t | t in b.graph :: SortDesc(b.graph[t], b.vals)
  }

  function BuildGraph(pools: seq<SimplePool>, vals: seq<int>): Built {
    var b := AddEdges(Edges(pools), vals, 2 * |pools|);
    Built(SortAll(b), b.vals)
  }

  // ---------- the state after the first n edges ----------

  ghost predicate Offers(edges: seq<Edge>, n: nat, k: int, s: Token, d: Token) {
    0 <= k < n <= |edges| && edges[k] == Edge(s, d)
  }

  /** `v` is the largest original value among the first n edges from `s` to `d`. */
  ghost predicate IsMaxOffer(edges: seq<Edge>, vals: seq<int>, n: nat, s: Token, d: Token, v: int)
    requires n <= |vals|
  {
    && (exists k :: Offers(edges, n, k, s, d) && vals[k] == v)
    && (forall k :: Offers(edges, n, k, s, d) ==> vals[k] <= v)
  }

  ghost predicate Owned(edges: seq<Edge>, n: nat, s: Token, ns: seq<Node>) {
    forall node :: node in ns ==> Offers(edges, n, node.liquidity, s, node.token)
  }

  ghost predicate Inv(edges: seq<Edge>, vals: seq<int>, n: nat, b: Built)
    requires n <= |edges| == |vals|
  {
    && |b.vals| == |vals|
    && DistinctDestinations(b.graph)
    && (forall s :: s in b.graph ==> Owned(edges, n, s, b.graph[s]))
    && (forall k {:trigger edges[k]} :: 0 <= k < n ==> HasEdge(b.graph, edges[k].src, edges[k].dst))
    && (forall s, node :: s in b.graph && node in b.graph[s] ==>
          IsMaxOffer(edges, vals, n, s, node.token, b.vals[node.liquidity]))
    && (forall k :: n <= k < |vals| ==> b.vals[k] == vals[k])
  }

  lemma {:induction false} AddEdgesInv(edges: seq<Edge>, vals: seq<int>, n: nat)
    requires n <= |edges| == |vals|
    ensures Inv(edges, vals, n, AddEdges(edges, vals, n))
  {
    hide Inv, AddEdge;
    if n == 0 {
      EmptyInv(edges, vals);
    } else {
      var b := AddEdges(edges, vals, n - 1);
      AddEdgesInv(edges, vals, n - 1);
      AddEdgeInv(edges, vals, n - 1, b);
    }
  }

  lemma EmptyInv(edges: seq<Edge>, vals: seq<int>)
    requires |edges| == |vals|
    ensures Inv(edges, vals, 0, Built(map[], vals))
  {
  }

  lemma AddEdgeInv(edges: seq<Edge>, vals: seq<int>, n: nat, b: Built)
    requires n < |edges| == |vals| && Inv(edges, vals, n, b)
    ensures Inv(edges, vals, n + 1, AddEdge(b, edges[n], n))
  {
    var e := edges[n];
    var ns := Nodes(b.graph, e.src);
    var k := Position(ns, e.dst);
    if k == |ns| {
      AppendInv(edges, vals, n, b);
    } else {
      RaiseInv(edges, vals, n, b, k);
    }
  }

  lemma MaxOfferStep(edges: seq<Edge>, vals: seq<int>, n: nat, s: Token, d: Token, v: int)
    requires n < |edges| == |vals| && IsMaxOffer(edges, vals, n, s, d, v)
    ensures edges[n] != Edge(s, d) ==> IsMaxOffer(edges, vals, n + 1, s, d, v)
    ensures edges[n] == Edge(s, d) ==> IsMaxOffer(edges, vals, n + 1, s, d, if v < vals[n] then vals[n] else v)
  {
    var k :| Offers(edges, n, k, s, d) && vals[k] == v;
    assert Offers(edges, n + 1, k, s, d);
    assert edges[n] == Edge(s, d) ==> Offers(edges, n + 1, n, s, d);
    assert forall j :: Offers(edges, n + 1, j, s, d) && j != n ==> Offers(edges, n, j, s, d);
  }

  ghost predicate IsNewEdge(edges: seq<Edge>, n: nat, b: Built) {
    n < |edges| && Position(Nodes(b.graph, edges[n].src), edges[n].dst) == |Nodes(b.graph, edges[n].src)|
  }

  lemma AppendInv(edges: seq<Edge>, vals: seq<int>, n: nat, b: Built)
    requires n < |edges| == |vals| && Inv(edges, vals, n, b) && IsNewEdge(edges, n, b)
    ensures Inv(edges, vals, n + 1, AddEdge(b, edges[n], n))
  {
    var b' := AddEdge(b, edges[n], n);
    AppendCovers(edges, vals, n, b);
    forall s, node: Node | node in Nodes(b'.graph, s)
      ensures Offers(edges, n + 1, node.liquidity, s, node.token)
      ensures IsMaxOffer(edges, vals, n + 1, s, node.token, b.vals[node.liquidity])
    {
      AppendNode(edges, vals, n, b, s, node);
    }
  }

  lemma AppendCovers(edges: seq<Edge>, vals: seq<int>, n: nat, b: Built)
    requires n < |edges| == |vals| && Inv(edges, vals, n, b) && IsNewEdge(edges, n, b)
    ensures var g := AddEdge(b, edges[n], n).graph;
      && DistinctDestinations(g)
      && forall k {:trigger edges[k]} :: 0 <= k < n + 1 ==> HasEdge(g, edges[k].src, edges[k].dst)
  {
    var e := edges[n];
    var ns := Nodes(b.graph, e.src);
    var g := b.graph[e.src := ns + [Node(e.dst, n)]];
    assert g == AddEdge(b, e, n).graph;
    forall k | 0 <= k < n + 1 ensures HasEdge(g, edges[k].src, edges[k].dst) {
      if k < n {
        assert HasEdge(b.graph, edges[k].src, edges[k].dst);
        var m :| m in Nodes(b.graph, edges[k].src) && m.token == edges[k].dst;
        assert m in Nodes(g, edges[k].src);
      } else {
        assert Node(e.dst, n) in Nodes(g, e.src);
      }
    }
    forall t, i, j | t in g && 0 <= i < j < |g[t]| ensures g[t][i].token != g[t][j].token {
      if t == e.src {
        assert g[t][i] == ns[i];
      }
    }
  }

  lemma AppendNode(edges: seq<Edge>, vals: seq<int>, n: nat, b: Built, s: Token, node: Node)
    requires n < |edges| == |vals| && Inv(edges, vals, n, b) && IsNewEdge(edges, n, b)
    requires node in Nodes(AddEdge(b, edges[n], n).graph, s)
    ensures Offers(edges, n + 1, node.liquidity, s, node.token)
    ensures IsMaxOffer(edges, vals, n + 1, s, node.token, b.vals[node.liquidity])
  {
    var e := edges[n];
    FirstOffer(edges, vals, n, b);
    if !(s == e.src && node == Node(e.dst, n)) {
      assert node in Nodes(b.graph, s);
      OldNodeStep(edges, vals, n, b, s, node);
      assert s == e.src ==> node.token != e.dst;
    } else {
      assert Offers(edges, n + 1, n, s, node.token);
    }
  }

  lemma OldNodeStep(edges: seq<Edge>, vals: seq<int>, n: nat, b: Built, s: Token, node: Node)
    requires n < |edges| == |vals| && Inv(edges, vals, n, b)
    requires node in Nodes(b.graph, s)
    ensures Offers(edges, n + 1, node.liquidity, s, node.token)
    ensures edges[n] != Edge(s, node.token) ==>
              IsMaxOffer(edges, vals, n + 1, s, node.token, b.vals[node.liquidity])
  {
    assert s in b.graph && Owned(edges, n, s, b.graph[s]);
    assert Offers(edges, n, node.liquidity, s, node.token);
    MaxOfferStep(edges, vals, n, s, node.token, b.vals[node.liquidity]);
  }

  lemma FirstOffer(edges: seq<Edge>, vals: seq<int>, n: nat, b: Built)
    requires n < |edges| == |vals| && Inv(edges, vals, n, b) && IsNewEdge(edges, n, b)
    ensures IsMaxOffer(edges, vals, n + 1, edges[n].src, edges[n].dst, vals[n])
  {
    assert Offers(edges, n + 1, n, edges[n].src, edges[n].dst);
    forall k: int | Offers(edges, n + 1, k, edges[n].src, edges[n].dst) ensures vals[k] <= vals[n] {
      assert k < n ==> HasEdge(b.graph, edges[k].src, edges[k].dst);
    }
  }

  lemma RaiseInv(edges: seq<Edge>, vals: seq<int>, n: nat, b: Built, k: nat)
    requires n < |edges| == |vals| && Inv(edges, vals, n, b)
    requires k < |Nodes(b.graph, edges[n].src)| && k == Position(Nodes(b.graph, edges[n].src), edges[n].dst)
    ensures Inv(edges, vals, n + 1, AddEdge(b, edges[n], n))
  {
    var e := edges[n];
    var ns := Nodes(b.graph, e.src);
    var hit := ns[k];
    var b' := AddEdge(b, e, n);
    assert hit in b.graph[e.src] && Owned(edges, n, e.src, b.graph[e.src]);
    forall j | 0 <= j < n + 1 ensures HasEdge(b'.graph, edges[j].src, edges[j].dst) {
      if j == n { assert hit in Nodes(b.graph, e.src); }
    }
    forall s, node: Node | s in b.graph && node in b.graph[s]
      ensures Offers(edges, n + 1, node.liquidity, s, node.token)
      ensures IsMaxOffer(edges, vals, n + 1, s, node.token, b'.vals[node.liquidity])
    {
      RaiseNode(edges, vals, n, b, hit, s, node);
    }
  }

  lemma RaiseNode(edges: seq<Edge>, vals: seq<int>, n: nat, b: Built, hit: Node, s: Token, node: Node)
    requires n < |edges| == |vals| && Inv(edges, vals, n, b)
    requires hit in Nodes(b.graph, edges[n].src) && hit.token == edges[n].dst
    requires node in Nodes(b.graph, s)
    ensures hit.liquidity < |vals| && Offers(edges, n + 1, node.liquidity, s, node.token)
    ensures var v := if node.liquidity == hit.liquidity && b.vals[hit.liquidity] < vals[n] then vals[n]
                     else b.vals[node.liquidity];
      IsMaxOffer(edges, vals, n + 1, s, node.token, v)
  {
    assert Owned(edges, n, s, b.graph[s]) && Owned(edges, n, edges[n].src, b.graph[edges[n].src]);
    assert Offers(edges, n, node.liquidity, s, node.token);
    assert Offers(edges, n, hit.liquidity, edges[n].src, edges[n].dst);
    MaxOfferStep(edges, vals, n, s, node.token, b.vals[node.liquidity]);
    // two nodes share a pointer only if they are the same edge
    if edges[n] == Edge(s, node.token) {
      SameEdgeSameNode(b.graph, s, node, hit);
    }
  }

  lemma SameEdgeSameNode(g: Graph, s: Token, m: Node, n: Node)
    requires DistinctDestinations(g) && m in Nodes(g, s) && n in Nodes(g, s) && m.token == n.token
    ensures m == n
  {
  }

  // ---------- sorting ----------

  ghost predicate Descending(ns: seq<Node>, vals: seq<int>) {
    forall i, j :: 0 <= i < j < |ns| ==> Value(vals, ns[i].liquidity) >= Value(vals, ns[j].liquidity)
  }

  /** The nodes of liquidity `v`, in order. */
  ghost function WithValue(ns: seq<Node>, vals: seq<int>, v: int): seq<Node> {
    if ns == [] then []
    else (if Value(vals, ns[0].liquidity) == v then [ns[0]] else []) + WithValue(ns[1..], vals, v)
  }

  ghost predicate DistinctTokens(ns: seq<Node>) {
    forall i, j :: 0 <= i < j < |ns| ==> ns[i].token != ns[j].token
  }

  lemma {:induction false} InsertDescMembers(n: Node, ns: seq<Node>, vals: seq<int>)
    ensures forall m :: m in InsertDesc(n, ns, vals) <==> m == n || m in ns
  {
    if !(ns == [] || Value(vals, ns[0].liquidity) <= Value(vals, n.liquidity)) {
      InsertDescMembers(n, ns[1..], vals);
      assert forall m :: m in ns <==> m == ns[0] || m in ns[1..];
    }
  }

  lemma {:induction false} InsertDescCorrect(n: Node, ns: seq<Node>, vals: seq<int>)
    requires Descending(ns, vals)
    ensures Descending(InsertDesc(n, ns, vals), vals)
  {
    if !(ns == [] || Value(vals, ns[0].liquidity) <= Value(vals, n.liquidity)) {
      var rest := InsertDesc(n, ns[1..], vals);
      InsertDescCorrect(n, ns[1..], vals);
      InsertDescMembers(n, ns[1..], vals);
      forall m | m in rest ensures Value(vals, m.liquidity) <= Value(vals, ns[0].liquidity) {
        assert m == n || m in ns[1..];
      }
      ConsDescending(ns[0], rest, vals);
    }
  }

  lemma ConsDescending(n: Node, ns: seq<Node>, vals: seq<int>)
    requires Descending(ns, vals) && forall m :: m in ns ==> Value(vals, m.liquidity) <= Value(vals, n.liquidity)
    ensures Descending([n] + ns, vals)
  {
  }

  lemma {:induction false} InsertDescDistinct(n: Node, ns: seq<Node>, vals: seq<int>)
    requires DistinctTokens(ns) && forall m :: m in ns ==> m.token != n.token
    ensures DistinctTokens(InsertDesc(n, ns, vals))
  {
    if !(ns == [] || Value(vals, ns[0].liquidity) <= Value(vals, n.liquidity)) {
      var rest := InsertDesc(n, ns[1..], vals);
      InsertDescDistinct(n, ns[1..], vals);
      InsertDescMembers(n, ns[1..], vals);
      forall m | m in rest ensures m.token != ns[0].token {
        assert m == n || m in ns[1..];
      }
    }
  }

  lemma {:induction false} InsertDescStable(n: Node, ns: seq<Node>, vals: seq<int>, v: int)
    ensures WithValue(InsertDesc(n, ns, vals), vals, v) == WithValue([n] + ns, vals, v)
  {
    assert ([n] + ns)[1..] == ns;
    if !(ns == [] || Value(vals, ns[0].liquidity) <= Value(vals, n.liquidity)) {
      var rest := InsertDesc(n, ns[1..], vals);
      InsertDescStable(n, ns[1..], vals, v);
      assert ([ns[0]] + rest)[1..] == rest;
      assert ([n] + ns[1..])[1..] == ns[1..];
    }
  }

  /** The sort is descending, has the same nodes, and is stable: nodes of equal liquidity keep their order. */
  lemma {:induction false} SortDescCorrect(ns: seq<Node>, vals: seq<int>)
    ensures var r := SortDesc(ns, vals);
      && Descending(r, vals)
      && (forall m :: m in r <==> m in ns)
      && (DistinctTokens(ns) ==> DistinctTokens(r))
      && (forall v :: WithValue(r, vals, v) == WithValue(ns, vals, v))
  {
    if ns != [] {
      var rest := SortDesc(ns[1..], vals);
      SortDescCorrect(ns[1..], vals);
      InsertDescCorrect(ns[0], rest, vals);
      InsertDescMembers(ns[0], rest, vals);
      if DistinctTokens(ns) {
        forall m | m in rest ensures m.token != ns[0].token {
          assert m in ns[1..];
        }
        InsertDescDistinct(ns[0], rest, vals);
      }
      forall v ensures WithValue(SortDesc(ns, vals), vals, v) == WithValue(ns, vals, v) {
        InsertDescStable(ns[0], rest, vals, v);
        assert ([ns[0]] + rest)[1..] == rest;
      }
    }
  }

  // ---------- the finished graph ----------

  ghost predicate Trades(pools: seq<SimplePool>, s: Token, d: Token) {
    exists p :: p in pools && Joins(p, s, d)
  }

  ghost predicate Joins(p: SimplePool, s: Token, d: Token) {
    (p.token0 == s && p.token1 == d) || (p.token0 == d && p.token1 == s)
  }

  lemma EdgesAreTrades(pools: seq<SimplePool>, s: Token, d: Token)
    ensures (exists k :: Offers(Edges(pools), 2 * |pools|, k, s, d)) <==> Trades(pools, s, d)
  {
    var edges := Edges(pools);
    if k :| Offers(edges, 2 * |pools|, k, s, d) {
      var i := k / 2;
      assert k == 2 * i || k == 2 * i + 1;
      var p := pools[i];
      assert edges[2 * i] == EdgeOf(p, true) && edges[2 * i + 1] == EdgeOf(p, false);
      assert p in pools && Joins(p, s, d);
    }
    if p :| p in pools && Joins(p, s, d) {
      var i :| 0 <= i < |pools| && pools[i] == p;
      assert edges[2 * i] == EdgeOf(p, true) && edges[2 * i + 1] == EdgeOf(p, false);
      if p.token0 == s && p.token1 == d {
        assert Offers(edges, 2 * |pools|, 2 * i, s, d);
      } else {
        assert Offers(edges, 2 * |pools|, 2 * i + 1, s, d);
      }
    }
  }

  /** v is the liquidity of s, the token paid in, in a pool of the pair. */
  ghost predicate OnSide(p: SimplePool, vals: seq<int>, s: Token, d: Token, v: int) {
    || (p.token0 == s && p.token1 == d && p.liq0 < |vals| && vals[p.liq0] == v)
    || (p.token1 == s && p.token0 == d && p.liq1 < |vals| && vals[p.liq1] == v)
  }

  /** The greatest liquidity of s among the pools of the pair. */
  ghost predicate IsDepth(pools: seq<SimplePool>, vals: seq<int>, s: Token, d: Token, v: int) {
    && (exists p :: p in pools && OnSide(p, vals, s, d, v))
    && (forall p, u :: p in pools && OnSide(p, vals, s, d, u) ==> u <= v)
  }

  lemma OfferIsDepth(pools: seq<SimplePool>, vals: seq<int>, s: Token, d: Token, v: int)
    requires Allocated(pools, |vals|) && IsMaxOffer(Edges(pools), vals, |vals|, s, d, v)
    ensures IsDepth(pools, vals, s, d, v)
  {
    var edges := Edges(pools);
    var k :| Offers(edges, |vals|, k, s, d) && vals[k] == v;
    assert k == 2 * (k / 2) || k == 2 * (k / 2) + 1;
    assert pools[k / 2] in pools && OnSide(pools[k / 2], vals, s, d, v);
    forall p, u | p in pools && OnSide(p, vals, s, d, u) ensures u <= v {
      var i :| 0 <= i < |pools| && pools[i] == p;
      assert edges[2 * i] == EdgeOf(p, true) && edges[2 * i + 1] == EdgeOf(p, false);
      if p.token0 == s && p.token1 == d && vals[p.liq0] == u {
        assert Offers(edges, |vals|, 2 * i, s, d);
      } else {
        assert Offers(edges, |vals|, 2 * i + 1, s, d);
      }
    }
  }

  lemma SortAllCorrect(u: Built)
    requires DistinctDestinations(u.graph)
    ensures DistinctDestinations(SortAll(u))
    ensures forall s, n :: n in Nodes(SortAll(u), s) <==> n in Nodes(u.graph, s)
    ensures forall s, d :: HasEdge(SortAll(u), s, d) <==> HasEdge(u.graph, s, d)
    ensures forall s :: s in u.graph ==> Descending(SortAll(u)[s], u.vals)
  {
    var g := SortAll(u);
    forall s ensures forall n :: n in Nodes(g, s) <==> n in Nodes(u.graph, s) {
      if s in u.graph { SortDescCorrect(u.graph[s], u.vals); }
    }
    forall s | s in u.graph ensures Descending(g[s], u.vals) && DistinctTokens(g[s]) {
      SortDescCorrect(u.graph[s], u.vals);
    }
  }

  lemma HasEdgeIffOffered(edges: seq<Edge>, vals: seq<int>, b: Built, s: Token, d: Token)
    requires |edges| == |vals| && Inv(edges, vals, |edges|, b)
    ensures HasEdge(b.graph, s, d) <==> exists k :: Offers(edges, |edges|, k, s, d)
  {
    if HasEdge(b.graph, s, d) {
      var n :| n in Nodes(b.graph, s) && n.token == d;
      assert Owned(edges, |edges|, s, b.graph[s]);
      assert Offers(edges, |edges|, n.liquidity, s, d);
    }
    if k :| Offers(edges, |edges|, k, s, d) {
      assert HasEdge(b.graph, edges[k].src, edges[k].dst);
    }
  }

  /**
   The graph has an edge, once, in both directions, exactly for the token pairs
   that some pool trades. Each edge carries the largest liquidity its pools had on
   the source side before the build, and every list is in descending order of it.
   */
  lemma BuildGraphCorrect(pools: seq<SimplePool>, vals: seq<int>)
    requires Allocated(pools, |vals|)
    ensures var b := BuildGraph(pools, vals);
      && |b.vals| == |vals|
      && DistinctDestinations(b.graph)
      && (forall s, d :: HasEdge(b.graph, s, d) <==> Trades(pools, s, d))
      && (forall s, d :: HasEdge(b.graph, s, d) <==> HasEdge(b.graph, d, s))
      && (forall s, n :: n in Nodes(b.graph, s) ==>
            n.liquidity < |vals| && IsMaxOffer(Edges(pools), vals, |vals|, s, n.token, b.vals[n.liquidity])
            && IsDepth(pools, vals, s, n.token, b.vals[n.liquidity]))
      && (forall s :: s in b.graph ==> Descending(b.graph[s], b.vals))
  {
    var edges := Edges(pools);
    var u := AddEdges(edges, vals, |vals|);
    AddEdgesInv(edges, vals, |vals|);
    SortAllCorrect(u);
    var b := BuildGraph(pools, vals);
    forall s, d ensures HasEdge(b.graph, s, d) <==> Trades(pools, s, d) {
      HasEdgeIffOffered(edges, vals, u, s, d);
      EdgesAreTrades(pools, s, d);
    }
    forall s, n: Node | n in Nodes(b.graph, s)
      ensures n.liquidity < |vals| && IsMaxOffer(edges, vals, |vals|, s, n.token, b.vals[n.liquidity])
      ensures IsDepth(pools, vals, s, n.token, b.vals[n.liquidity])
    {
      assert n in Nodes(u.graph, s);
      assert s in u.graph && n in u.graph[s];
      assert Owned(edges, |vals|, s, u.graph[s]);
      assert Offers(edges, |vals|, n.liquidity, s, n.token);
      OfferIsDepth(pools, vals, s, n.token, b.vals[n.liquidity]);
    }
    forall s, d ensures Trades(pools, s, d) ==> Trades(pools, d, s) {
      if p :| p in pools && Joins(p, s, d) { assert Joins(p, d, s); }
    }
  }
}
