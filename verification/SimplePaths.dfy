/**
 Depth-first enumeration of the simple token paths of a pool graph
 (pdexv3/pathfinder/pdexv3estimatetrade.go, findPath), without the cap on the
 number of results. The search itself is the method `Pathfinder.PriceCalculator.FindPath`.
 */
module SimplePaths {
  import opened Types

  /** An adjacency list: a destination and the pointer to the edge's liquidity. */
  datatype Node = Node(token: Token, liquidity: nat)

  type Graph = map<Token, seq<Node>>

  function Nodes(g: Graph, t: Token): seq<Node> {
    if t in g then g[t] else []
  }

  /** Paths from `at` to `dst` that avoid `seen`, with at most `room` tokens, in the order of the adjacency lists. */
  function PathsFrom(g: Graph, at: Token, dst: Token, seen: set<Token>, room: nat): seq<seq<Token>>
    decreases room, 0
  {
    if at == dst then [[at]]
    else if room <= 1 then []
    else PrefixAll([at], PathsVia(g, Nodes(g, at), dst, seen + {at}, room - 1))
  }

  /** The same for the next hop taken, in turn, to each of `ns`. */
  function PathsVia(g: Graph, ns: seq<Node>, dst: Token, seen: set<Token>, room: nat): seq<seq<Token>>
    decreases room, |ns|
  {
    if ns == [] then []
    else
      (if ns[0].token in seen then [] else PathsFrom(g, ns[0].token, dst, seen, room))
      + PathsVia(g, ns[1..], dst, seen, room)
  }

  function PrefixAll(prefix: seq<Token>, ps: seq<seq<Token>>): (r: seq<seq<Token>>)
    ensures |r| == |ps|
    ensures forall i :: 0 <= i < |ps| ==> r[i] == prefix + ps[i]
  {
    seq(|ps|, i requires 0 <= i < |ps| => prefix + ps[i])
  }

  function Take<T>(s: seq<T>, n: nat): seq<T> {
    if |s| <= n then s else s[..n]
  }

  // ---------- what a simple path is ----------

  ghost predicate Distinct<T>(s: seq<T>) {
    forall i, j :: 0 <= i < j < |s| ==> s[i] != s[j]
  }

  ghost predicate HasEdge(g: Graph, s: Token, d: Token) {
    exists n :: n in Nodes(g, s) && n.token == d
  }

  ghost predicate IsSimplePath(g: Graph, p: seq<Token>, src: Token, dst: Token) {
    && p != [] && p[0] == src && p[|p| - 1] == dst
    && Distinct(p)
    && forall i {:trigger p[i]} :: 0 <= i < |p| - 1 ==> HasEdge(g, p[i], p[i + 1])
  }

  ghost predicate Avoids(p: seq<Token>, seen: set<Token>) {
    forall t :: t in p ==> t !in seen
  }

  ghost predicate Fits(p: seq<Token>, room: nat) {
    |p| <= room || |p| == 1
  }

  // ---------- soundness and completeness ----------

  /** A path is enumerated exactly when it is simple, avoids the tokens already used and fits. */
  lemma {:induction false} PathsFromMembers(g: Graph, at: Token, dst: Token, seen: set<Token>, room: nat, p: seq<Token>)
    requires at !in seen
    ensures p in PathsFrom(g, at, dst, seen, room)
       <==> IsSimplePath(g, p, at, dst) && Avoids(p, seen) && Fits(p, room)
    decreases room, 0
  {
    if at == dst {
      if IsSimplePath(g, p, at, dst) {
        assert |p| == 1;
        assert p == [at];
      }
    } else if room > 1 {
      var ns := Nodes(g, at);
      var via := PathsVia(g, ns, dst, seen + {at}, room - 1);
      if p in PathsFrom(g, at, dst, seen, room) {
        var i :| 0 <= i < |via| && p == [at] + via[i];
        var q := via[i];
        PathsViaMembers(g, ns, dst, seen + {at}, room - 1, q);
        assert p[1..] == q;
        ConsSimple(g, at, q, dst, seen);
      }
      if IsSimplePath(g, p, at, dst) && Avoids(p, seen) && Fits(p, room) {
        var q := p[1..];
        assert p == [at] + q;
        TailSimple(g, p, at, dst, seen);
        PathsViaMembers(g, ns, dst, seen + {at}, room - 1, q);
        var i :| 0 <= i < |via| && via[i] == q;
        assert PrefixAll([at], via)[i] == p;
      }
    } else {
      assert IsSimplePath(g, p, at, dst) ==> !Fits(p, room);
    }
  }

  lemma {:induction false} PathsViaMembers(g: Graph, ns: seq<Node>, dst: Token, seen: set<Token>, room: nat, p: seq<Token>)
    ensures p in PathsVia(g, ns, dst, seen, room)
       <==> p != [] && (exists n :: n in ns && n.token == p[0])
            && IsSimplePath(g, p, p[0], dst) && Avoids(p, seen) && Fits(p, room)
    decreases room, |ns|
  {
    if ns != [] {
      var n := ns[0];
      PathsViaMembers(g, ns[1..], dst, seen, room, p);
      if n.token !in seen {
        PathsFromMembers(g, n.token, dst, seen, room, p);
      }
      assert p != [] ==> ((exists m :: m in ns && m.token == p[0])
                          <==> n.token == p[0] || exists m :: m in ns[1..] && m.token == p[0]);
    }
  }

  lemma ConsSimple(g: Graph, at: Token, q: seq<Token>, dst: Token, seen: set<Token>)
    requires q != [] && HasEdge(g, at, q[0]) && IsSimplePath(g, q, q[0], dst) && Avoids(q, seen + {at})
    requires at !in seen
    ensures IsSimplePath(g, [at] + q, at, dst) && Avoids([at] + q, seen)
  {
    var p := [at] + q;
    assert p[1..] == q;
    forall i, j | 0 <= i < j < |p| ensures p[i] != p[j] {
      assert p[j] == q[j - 1];
      if i > 0 { assert p[i] == q[i - 1]; }
      assert q[j - 1] in q;
    }
    forall i | 0 <= i < |p| - 1 ensures HasEdge(g, p[i], p[i + 1]) {
      if i > 0 { assert p[i] == q[i - 1] && p[i + 1] == q[i - 1 + 1]; }
    }
    forall t | t in p ensures t !in seen {
      assert t == at || t in q;
    }
  }

  lemma TailSimple(g: Graph, p: seq<Token>, at: Token, dst: Token, seen: set<Token>)
    requires IsSimplePath(g, p, at, dst) && Avoids(p, seen) && at != dst
    ensures |p| > 1 && HasEdge(g, at, p[1])
    ensures IsSimplePath(g, p[1..], p[1], dst) && Avoids(p[1..], seen + {at})
  {
    assert |p| > 1;
    var q := p[1..];
    assert HasEdge(g, p[0], p[0 + 1]);
    forall i | 0 <= i < |q| - 1 ensures HasEdge(g, q[i], q[i + 1]) {
      assert HasEdge(g, p[i + 1], p[i + 1 + 1]);
    }
    forall t | t in q ensures t !in seen + {at} {
      var i :| 0 <= i < |q| && q[i] == t;
      assert p[i + 1] == t && p[0] != p[i + 1];
    }
  }

  // ---------- order ----------

  /**
   `p` comes before `q`: they agree up to some token and then `p` follows an
   earlier entry of that token's adjacency list than `q`.
   */
  ghost predicate Precedes(g: Graph, p: seq<Token>, q: seq<Token>) {
    exists k, a, b :: BranchesAt(g, p, q, k, a, b)
  }

  ghost predicate BranchesAt(g: Graph, p: seq<Token>, q: seq<Token>, k: int, a: int, b: int) {
    && 1 <= k < |p| && k < |q| && p[..k] == q[..k]
    && 0 <= a < b < |Nodes(g, p[k - 1])|
    && Nodes(g, p[k - 1])[a].token == p[k] && Nodes(g, p[k - 1])[b].token == q[k]
    && p[k] != q[k]
  }

  ghost predicate Ordered(g: Graph, ps: seq<seq<Token>>) {
    forall i, j :: 0 <= i < j < |ps| ==> Precedes(g, ps[i], ps[j])
  }

  ghost predicate DistinctDestinations(g: Graph) {
    forall t, i, j :: t in g && 0 <= i < j < |g[t]| ==> g[t][i].token != g[t][j].token
  }

  /** The enumeration lists paths in the order of the adjacency lists, so no path appears twice. */
  lemma {:induction false} PathsFromOrdered(g: Graph, at: Token, dst: Token, seen: set<Token>, room: nat)
    requires at !in seen && DistinctDestinations(g)
    ensures Ordered(g, PathsFrom(g, at, dst, seen, room))
    decreases room, 0
  {
    if at != dst && room > 1 {
      var via := PathsVia(g, Nodes(g, at), dst, seen + {at}, room - 1);
      ViaOrdered(g, at, 0, dst, seen + {at}, room - 1);
      assert Nodes(g, at)[0..] == Nodes(g, at);
      var ps := PrefixAll([at], via);
      forall i, j | 0 <= i < j < |ps| ensures Precedes(g, ps[i], ps[j]) {
        assert Precedes(g, [at] + via[i], [at] + via[j]);
      }
    }
  }

  lemma {:induction false} ViaOrdered(g: Graph, at: Token, from: nat, dst: Token, seen: set<Token>, room: nat)
    requires DistinctDestinations(g) && from <= |Nodes(g, at)|
    ensures OrderedAfter(g, at, PathsVia(g, Nodes(g, at)[from..], dst, seen, room))
    decreases room, |Nodes(g, at)| - from
  {
    var ns := Nodes(g, at)[from..];
    if ns != [] {
      var n := ns[0];
      var head := if n.token in seen then [] else PathsFrom(g, n.token, dst, seen, room);
      var tail := PathsVia(g, ns[1..], dst, seen, room);
      assert ns[1..] == Nodes(g, at)[from + 1..];
      ViaOrdered(g, at, from + 1, dst, seen, room);
      if n.token !in seen {
        PathsFromOrdered(g, n.token, dst, seen, room);
      }
      forall i, j | 0 <= i < j < |head| ensures Precedes(g, [at] + head[i], [at] + head[j]) {
        PrependPrecedes(g, at, head[i], head[j]);
      }
      forall p, q | p in head && q in tail ensures Precedes(g, [at] + p, [at] + q) {
        PathsFromMembers(g, n.token, dst, seen, room, p);
        PathsViaMembers(g, ns[1..], dst, seen, room, q);
        LaterBranch(g, at, from, p, q);
      }
      ConcatOrdered(g, at, head, tail);
    }
  }

  ghost predicate OrderedAfter(g: Graph, at: Token, ps: seq<seq<Token>>) {
    forall i, j :: 0 <= i < j < |ps| ==> Precedes(g, [at] + ps[i], [at] + ps[j])
  }

  lemma PrependPrecedes(g: Graph, at: Token, p: seq<Token>, q: seq<Token>)
    requires Precedes(g, p, q)
    ensures Precedes(g, [at] + p, [at] + q)
  {
    var k, a, b :| BranchesAt(g, p, q, k, a, b);
    assert ([at] + p)[..k + 1] == [at] + p[..k];
    assert ([at] + q)[..k + 1] == [at] + q[..k];
    assert BranchesAt(g, [at] + p, [at] + q, k + 1, a, b);
  }

  lemma LaterBranch(g: Graph, at: Token, from: nat, p: seq<Token>, q: seq<Token>)
    requires DistinctDestinations(g) && from < |Nodes(g, at)|
    requires p != [] && p[0] == Nodes(g, at)[from].token
    requires q != [] && exists n :: n in Nodes(g, at)[from + 1..] && n.token == q[0]
    ensures Precedes(g, [at] + p, [at] + q)
  {
    var later := Nodes(g, at)[from + 1..];
    var m :| m in later && m.token == q[0];
    var b :| 0 <= b < |later| && later[b] == m;
    assert Nodes(g, at)[from + 1 + b] == m;
    assert ([at] + p)[..1] == [at] && ([at] + q)[..1] == [at];
    assert BranchesAt(g, [at] + p, [at] + q, 1, from, from + 1 + b);
  }

  lemma ConcatOrdered(g: Graph, at: Token, head: seq<seq<Token>>, tail: seq<seq<Token>>)
    requires OrderedAfter(g, at, head) && OrderedAfter(g, at, tail)
    requires forall p, q :: p in head && q in tail ==> Precedes(g, [at] + p, [at] + q)
    ensures OrderedAfter(g, at, head + tail)
  {
    var all := head + tail;
    forall i, j | 0 <= i < j < |all| ensures Precedes(g, [at] + all[i], [at] + all[j]) {
      assert i < |head| ==> all[i] == head[i] && all[i] in head;
      assert j >= |head| ==> all[j] == tail[j - |head|] && all[j] in tail;
      assert j < |head| ==> all[j] == head[j];
      assert i >= |head| ==> all[i] == tail[i - |head|];
    }
  }

  lemma OrderedIsDistinct(g: Graph, ps: seq<seq<Token>>)
    requires Ordered(g, ps)
    ensures Distinct(ps)
  {
    forall i, j | 0 <= i < j < |ps| ensures ps[i] != ps[j] {
      var k, a, b :| BranchesAt(g, ps[i], ps[j], k, a, b);
    }
  }
}
