/**
 From pool names back to tokens: the token route shown to the client
 (apiservice/utils.go, getTokenRoute) and the bought token the trade processor
 recovers from a request's trade path (processors/trade/trade.go, processTradeToken).
 */
module TokenRoute {
  import opened Types
  import TP = TradePath
  import SP = SimplePaths

  // ---------- pool names ----------

  /** `strings.Split(s, "-")`. */
  function Split(s: string): (parts: seq<string>)
    ensures |parts| >= 1
  {
    if s == "" then [""]
    else if s[0] == '-' then [""] + Split(s[1..])
    else
      var rest := Split(s[1..]);
      [[s[0]] + rest[0]] + rest[1..]
  }

  predicate NoDash(s: string) {
    '-' !in s
  }

  lemma {:induction false} SplitWord(s: string)
    requires NoDash(s)
    ensures Split(s) == [s]
  {
    if s != "" {
      SplitWord(s[1..]);
      assert [s[0]] + s[1..] == s;
    }
  }

  lemma {:induction false} SplitDash(s: string, t: string)
    requires NoDash(s)
    ensures Split(s + "-" + t) == [s] + Split(t)
  {
    var whole := s + "-" + t;
    if s == "" {
      assert whole[1..] == t;
    } else {
      assert whole[1..] == s[1..] + "-" + t;
      SplitDash(s[1..], t);
      assert [s[0]] + s[1..] == s;
    }
  }

  /** The name of a pool of the two tokens. */
  ghost predicate Names(id: string, a: string, b: string) {
    exists nonce: string :: NoDash(nonce) && NoDash(a) && NoDash(b) && id == a + "-" + (b + "-" + nonce)
  }

  lemma SplitName(id: string, a: string, b: string)
    requires Names(id, a, b)
    ensures |Split(id)| == 3 && Split(id)[0] == a && Split(id)[1] == b
  {
    var nonce: string :| NoDash(nonce) && NoDash(a) && NoDash(b) && id == a + "-" + (b + "-" + nonce);
    SplitDash(a, b + "-" + nonce);
    SplitDash(b, nonce);
    SplitWord(nonce);
  }

  /** The pools' names, in order, lead along the walk, each pool in either direction. */
  ghost predicate NamesWalk(ids: seq<string>, w: seq<string>) {
    && |w| == |ids| + 1
    && forall i {:trigger ids[i]} :: 0 <= i < |ids| ==> Names(ids[i], w[i], w[i + 1]) || Names(ids[i], w[i + 1], w[i])
  }

  ghost predicate SimpleWalk(ids: seq<string>, w: seq<string>) {
    NamesWalk(ids, w) && SP.Distinct(w)
  }

  // ---------- the token route ----------

  method GetTokenRoute(sellToken: string, route: seq<string>) returns (tokenRoute: seq<string>)
    requires forall id :: id in route ==> |Split(id)| >= 2
    ensures |tokenRoute| == |route| + 1 && tokenRoute[0] == sellToken
    ensures forall i {:trigger tokenRoute[i + 1]} :: 0 <= i < |route| ==>
              tokenRoute[i + 1] == OtherEnd(route[i], tokenRoute[i])
  {
    tokenRoute := [sellToken];
    var intermediateToken := sellToken;
    var i := 0;
    while i < |route|
      invariant 0 <= i <= |route| && |tokenRoute| == i + 1
      invariant tokenRoute[0] == sellToken && tokenRoute[i] == intermediateToken
      invariant forall k {:trigger tokenRoute[k + 1]} :: 0 <= k < i ==> tokenRoute[k + 1] == OtherEnd(route[k], tokenRoute[k])
    {
      var tks := Split(route[i]);
      assert route[i] in route;
      if tks[0] != intermediateToken {
        tokenRoute := tokenRoute + [tks[0]];
        intermediateToken := tks[0];
      } else {
        tokenRoute := tokenRoute + [tks[1]];
        intermediateToken := tks[1];
      }
      i := i + 1;
    }
  }

  /** The first token of the name unless it is the one held, and then the second. */
  function OtherEnd(id: string, held: string): string
    requires |Split(id)| >= 2
  {
    if Split(id)[0] != held then Split(id)[0] else Split(id)[1]
  }

  /** Along a simple walk the token route is the walk. */
  lemma {:induction false} RouteIsWalk(ids: seq<string>, w: seq<string>, route: seq<string>, n: nat)
    requires SimpleWalk(ids, w) && n <= |ids|
    requires forall id :: id in ids ==> |Split(id)| >= 2
    requires |route| == |ids| + 1 && route[0] == w[0]
    requires forall i {:trigger route[i + 1]} :: 0 <= i < |ids| ==> route[i + 1] == OtherEnd(ids[i], route[i])
    ensures route[..n + 1] == w[..n + 1]
  {
    if n > 0 {
      RouteIsWalk(ids, w, route, n - 1);
      assert route[n - 1] == route[..n][n - 1] == w[..n][n - 1] == w[n - 1];
      assert route[n - 1 + 1] == OtherEnd(ids[n - 1], w[n - 1]);
      if Names(ids[n - 1], w[n - 1], w[n]) {
        SplitName(ids[n - 1], w[n - 1], w[n]);
      } else {
        SplitName(ids[n - 1], w[n], w[n - 1]);
      }
      assert w[n - 1] != w[n];
    }
  }

  // ---------- the bought token ----------

  /** Every piece of the names but the last of each. */
  function Mentions(path: seq<string>): seq<string> {
    if path == [] then []
    else Mentions(path[..|path| - 1]) + Init(Split(path[|path| - 1]))
  }

  function Init<T>(s: seq<T>): seq<T>
    requires |s| >= 1
  {
    s[..|s| - 1]
  }

  ghost predicate SeenOnce(path: seq<string>, v: string) {
    multiset(Mentions(path))[v] == 1
  }

  ghost predicate CanBeBought(sellToken: string, path: seq<string>, v: string) {
    SeenOnce(path, v) && v != sellToken
  }

  method RecoverBuyToken(sellToken: string, path: seq<string>) returns (buyToken: string)
    requires |path| == 1 ==> |Split(path[0])| >= 2
    ensures |path| == 1 ==> buyToken == if Split(path[0])[0] == sellToken then Split(path[0])[1] else Split(path[0])[0]
    ensures |path| != 1 ==> if exists v :: CanBeBought(sellToken, path, v) then CanBeBought(sellToken, path, buyToken)
                            else buyToken == ""
  {
    buyToken := "";
    if |path| == 1 {
      var tks := Split(path[0]);
      if tks[0] == sellToken {
        buyToken := tks[1];
      } else {
        buyToken := tks[0];
      }
    } else {
      var tksMap := CountMentions(path);
      var todo := tksMap.Keys;
      ghost var found := false;
      while todo != {}
        invariant todo <= tksMap.Keys
        invariant if found then CanBeBought(sellToken, path, buyToken) else buyToken == ""
        invariant !found ==> forall v :: v in tksMap.Keys - todo ==> !CanBeBought(sellToken, path, v)
      {
        var k :| k in todo;
        todo := todo - {k};
        if tksMap[k] && k != sellToken {
          buyToken := k;
          found := true;
        }
      }
      forall v | CanBeBought(sellToken, path, v) ensures v in tksMap {
        assert v in multiset(Mentions(path));
      }
    }
  }

  /** The map holds every token mentioned, as true if it was mentioned once. */
  ghost predicate Tracks(tksMap: map<string, bool>, seen: seq<string>) {
    && (forall v :: v in tksMap <==> v in seen)
    && (forall v :: v in tksMap ==> (tksMap[v] <==> multiset(seen)[v] == 1))
  }

  lemma TracksMore(tksMap: map<string, bool>, seen: seq<string>, v: string)
    requires Tracks(tksMap, seen)
    ensures Tracks(tksMap[v := v !in tksMap], seen + [v])
  {
    assert v in seen <==> multiset(seen)[v] > 0;
    assert forall u :: u in seen + [v] <==> u in seen || u == v;
    assert multiset(seen + [v]) == multiset(seen)[v := multiset(seen)[v] + 1];
  }

  /** A token's first mention sets its entry, every later one clears it. */
  method CountMentions(path: seq<string>) returns (tksMap: map<string, bool>)
    ensures Tracks(tksMap, Mentions(path))
  {
    tksMap := map[];
    var i := 0;
    while i < |path|
      invariant 0 <= i <= |path|
      invariant Tracks(tksMap, Mentions(path[..i]))
    {
      assert path[..i + 1][..i] == path[..i];
      tksMap := CountPieces(Split(path[i]), tksMap, Mentions(path[..i]));
      i := i + 1;
    }
    assert path[..|path|] == path;
  }

  /** The inner loop: every piece of one name but the last. */
  method CountPieces(tks: seq<string>, before: map<string, bool>, ghost seen: seq<string>) returns (tksMap: map<string, bool>)
    requires |tks| >= 1 && Tracks(before, seen)
    ensures Tracks(tksMap, seen + Init(tks))
  {
    hide Tracks;
    tksMap := before;
    assert seen + tks[..0] == seen;
    var idx := 0;
    while idx < |tks|
      invariant 0 <= idx <= |tks|
      invariant Tracks(tksMap, seen + tks[..if idx < |tks| then idx else |tks| - 1])
    {
      var v := tks[idx];
      if idx + 1 == |tks| {
        idx := idx + 1;
        continue;
      }
      TracksMore(tksMap, seen + tks[..idx], v);
      assert seen + tks[..idx + 1] == seen + tks[..idx] + [v];
      if v in tksMap {
        tksMap := tksMap[v := false];
      } else {
        tksMap := tksMap[v := true];
      }
      idx := idx + 1;
    }
  }

  /** Along a simple walk both ends are mentioned once and every token in between twice. */
  lemma {:induction false} WalkMentions(ids: seq<string>, w: seq<string>, v: string)
    requires SimpleWalk(ids, w) && |ids| >= 1
    ensures multiset(Mentions(ids))[v] == (if v == w[0] || v == w[|w| - 1] then 1 else if v in w then 2 else 0)
  {
    var n := |ids|;
    var init := ids[..n - 1];
    LastPair(ids, w);
    assert Mentions(ids) == Mentions(init) + Init(Split(ids[n - 1]));
    assert w == w[..n] + [w[n]];
    assert w[n] !in w[..n];
    if n > 1 {
      assert forall i :: 0 <= i < |init| ==> init[i] == ids[i];
      WalkMentions(init, w[..n], v);
    }
  }

  lemma LastPair(ids: seq<string>, w: seq<string>)
    requires SimpleWalk(ids, w) && |ids| >= 1
    ensures multiset(Init(Split(ids[|ids| - 1]))) == multiset{w[|w| - 2], w[|w| - 1]}
  {
    var n := |ids|;
    var parts := Split(ids[n - 1]);
    if Names(ids[n - 1], w[n - 1], w[n - 1 + 1]) {
      SplitName(ids[n - 1], w[n - 1], w[n]);
      assert Init(parts) == [w[n - 1], w[n]];
    } else {
      SplitName(ids[n - 1], w[n], w[n - 1]);
      assert Init(parts) == [w[n], w[n - 1]];
    }
  }

  /**
   Round trip: for the names of any simple walk of pools the route shown is the
   walk, and the only token the processor can recover is the walk's last one.
   */
  method RoundTrip(ids: seq<string>, w: seq<string>) returns (route: seq<string>, buyToken: string)
    requires SimpleWalk(ids, w) && |ids| >= 1
    ensures route == w
    ensures buyToken == w[|w| - 1]
  {
    forall id | id in ids ensures |Split(id)| >= 2 {
      var i :| 0 <= i < |ids| && ids[i] == id;
      if Names(ids[i], w[i], w[i + 1]) { SplitName(id, w[i], w[i + 1]); } else { SplitName(id, w[i + 1], w[i]); }
    }
    assert ids[0] in ids;
    route := GetTokenRoute(w[0], ids);
    RouteIsWalk(ids, w, route, |ids|);
    assert route[..|ids| + 1] == route && w[..|ids| + 1] == w;
    buyToken := RecoverBuyToken(w[0], ids);
    var last := w[|w| - 1];
    if |ids| == 1 {
      if Names(ids[0], w[0], w[0 + 1]) { SplitName(ids[0], w[0], w[1]); } else { SplitName(ids[0], w[1], w[0]); }
    } else {
      WalkMentions(ids, w, last);
      assert CanBeBought(w[0], ids, last);
      WalkMentions(ids, w, buyToken);
    }
  }

  // ---------- the routes of the path finder ----------

  /** Pools are named after their tokens. */
  ghost predicate WellNamed(m: TP.Market) {
    forall p :: p in m.pools ==> Names(p.id, p.token0.id, p.token1.id)
  }

  function Ids(ps: seq<TP.Pool>): seq<string> {
    seq(|ps|, i requires 0 <= i < |ps| => ps[i].id)
  }

  function TokenIds(w: seq<Token>): seq<string> {
    seq(|w|, i requires 0 <= i < |w| => w[i].id)
  }

  /** The names of a route that pays anything lead from the sold token to the requested one. */
  lemma FoundRouteLeadsBack(m: TP.Market, maxHops: nat, src: Token, dst: Token, amount: nat) returns (w: seq<Token>)
    requires TP.WellFormed(m) && TP.NothingForNothing(m) && WellNamed(m) && src != dst
    requires TP.GoodTradePath(m, maxHops, src, dst, amount).receive > 0
    ensures var r := TP.GoodTradePath(m, maxHops, src, dst, amount);
      && TP.AllChosen(r.pools)
      && SimpleWalk(Ids(TP.Chosen(r.pools)), TokenIds(w)) && |r.pools| >= 1
      && TokenIds(w)[0] == src.id && TokenIds(w)[|w| - 1] == dst.id
  {
    hide TP.GoodTradePath, TP.Replay, TP.Greedy;
    w := TP.GoodTradePathReplays(m, maxHops, src, dst, amount);
    var ps := TP.Chosen(TP.GoodTradePath(m, maxHops, src, dst, amount).pools);
    var ids, names := Ids(ps), TokenIds(w);
    forall i | 0 <= i < |ids| ensures Names(ids[i], names[i], names[i + 1]) || Names(ids[i], names[i + 1], names[i]) {
      assert ps[i] in m.pools && TP.Joins(ps[i], w[i], w[i + 1]);
    }
    assert SP.Distinct(names);
    assert |w| > 1;
  }
}
