/**
 The trading fee estimate (pdexv3/feeestimator/estimator.go and utils.go) and its
 use for a "max" trade (apiservice/pdexv3.go, EstimateTrade).
 */
module FeeEstimator {
  import opened Types
  import opened FeeMath

  datatype Result = Ok(fee: nat) | Err(message: string)

  datatype Params = Params(defaultFeeRateBPS: nat, feeRateBPS: map<string, nat>, prvDiscountPercent: nat, minPRVReserve: nat)

  datatype PoolState = PoolState(token0: Token, token1: Token, virtual0: nat, virtual1: nat, amplifier: nat)

  datatype PdexState = PdexState(params: Params, poolPairs: map<string, PoolState>)

  /** The chain's native token, and the empty token of a pool that does not hold it. */
  const PRV: Token := Token("0000000000000000000000000000000000000000000000000000000000000004")
  const NO_TOKEN: Token := Token("")

  const BASE_AMPLIFIER: nat := 10000

  // ---------- the fee in the sold token ----------

  function PoolRate(p: Params, pair: string): (rate: nat)
    ensures pair in p.feeRateBPS ==> rate == p.feeRateBPS[pair]
    ensures pair !in p.feeRateBPS ==> rate == p.defaultFeeRateBPS
  {
    if pair in p.feeRateBPS then p.feeRateBPS[pair] else p.defaultFeeRateBPS
  }

  function TotalRate(p: Params, path: seq<string>): nat {
    if path == [] then 0 else TotalRate(p, path[..|path| - 1]) + PoolRate(p, path[|path| - 1])
  }

  function SellFee(p: Params, amount: nat, path: seq<string>): Result {
    if path == [] then Err("tradePath is empty")
    else if amount == 0 then Err("sellAmount is 0")
    else Ok(Fee(amount, TotalRate(p, path) % TWO_64))
  }

  /** The pools' own rates where they have one, the default rate elsewhere. */
  ghost predicate AreRates(p: Params, path: seq<string>, rates: seq<nat>) {
    && |rates| == |path|
    && forall i :: 0 <= i < |path| ==>
         if path[i] in p.feeRateBPS then rates[i] == p.feeRateBPS[path[i]] else rates[i] == p.defaultFeeRateBPS
  }

  function SumOf(rates: seq<nat>): nat {
    if rates == [] then 0 else rates[0] + SumOf(rates[1..])
  }

  lemma {:induction false} SumInitLast(rates: seq<nat>)
    requires rates != []
    ensures SumOf(rates) == SumOf(rates[..|rates| - 1]) + rates[|rates| - 1]
  {
    if |rates| > 1 {
      SumInitLast(rates[1..]);
      assert rates[1..][..|rates| - 2] == rates[..|rates| - 1][1..];
    }
  }

  /** The total rate is their sum. */
  lemma {:induction false} TotalRateIsSum(p: Params, path: seq<string>, rates: seq<nat>)
    requires AreRates(p, path, rates)
    ensures TotalRate(p, path) == SumOf(rates)
  {
    if path != [] {
      var n := |path| - 1;
      TotalRateIsSum(p, path[..n], rates[..n]);
      SumInitLast(rates);
    }
  }

  /** The loop that both estimates start with: the rates of the pools added as `uint`. */
  method PathRate(p: Params, path: seq<string>) returns (rate: nat)
    ensures rate == TotalRate(p, path) % TWO_64
    ensures forall rates :: AreRates(p, path, rates) ==> rate == SumOf(rates) % TWO_64
  {
    forall rates | AreRates(p, path, rates) ensures TotalRate(p, path) == SumOf(rates) {
      TotalRateIsSum(p, path, rates);
    }
    rate := 0;
    var i := 0;
    while i < |path|
      invariant 0 <= i <= |path|
      invariant rate == TotalRate(p, path[..i]) % TWO_64
    {
      var poolFee := p.defaultFeeRateBPS;
      if path[i] in p.feeRateBPS {
        poolFee := p.feeRateBPS[path[i]];
      }
      assert path[..i + 1][..i] == path[..i];
      rate := (rate + poolFee) % TWO_64;
      i := i + 1;
    }
    assert path[..|path|] == path;
  }

  method EstimateFeeInSellToken(sellAmount: nat, path: seq<string>, state: PdexState) returns (r: Result)
    ensures r == SellFee(state.params, sellAmount, path)
  {
    if |path| == 0 {
      return Err("tradePath is empty");
    }
    if sellAmount == 0 {
      return Err("sellAmount is 0");
    }
    var rate := PathRate(state.params, path);
    var numerator := sellAmount * rate;
    var fee := numerator / BPS;
    if numerator % BPS != 0 {
      fee := fee + 1;
    }
    r := Ok(fee % TWO_64);
  }

  /** Neither the total rate nor the fee overflows a machine word. */
  predicate FeeFits(p: Params, amount: nat, path: seq<string>) {
    TotalRate(p, path) < TWO_64 && CeilDiv(amount * TotalRate(p, path), BPS) < TWO_64
  }

  lemma SellFeeValue(p: Params, amount: nat, path: seq<string>)
    requires FeeFits(p, amount, path) && path != [] && amount > 0
    ensures SellFee(p, amount, path) == Ok(CeilDiv(amount * TotalRate(p, path), BPS))
  {
    var rate := TotalRate(p, path);
    assert rate % TWO_64 == rate;
    var fee := CeilDiv(amount * rate, BPS);
    assert fee % TWO_64 == fee;
  }

  /** The fee is the least one that covers the path's total rate. */
  lemma SellFeeIsLeast(p: Params, amount: nat, path: seq<string>, k: nat)
    requires FeeFits(p, amount, path) && path != [] && amount > 0
    ensures SellFee(p, amount, path).Ok?
    ensures k * BPS >= amount * TotalRate(p, path) <==> k >= SellFee(p, amount, path).fee
  {
    SellFeeValue(p, amount, path);
    CeilDivLeast(amount * TotalRate(p, path), BPS, k);
  }

  lemma RateFeeMono(amount: nat, amount': nat, rate: nat, rate': nat)
    requires amount <= amount' && rate <= rate'
    ensures CeilDiv(amount * rate, BPS) <= CeilDiv(amount' * rate', BPS)
  {
    MulMono(amount, amount', rate);
    MulMono(rate, rate', amount');
    CeilDivMono(amount * rate, amount' * rate', BPS);
  }

  /** A larger amount on a path of a higher total rate costs no less. */
  lemma SellFeeMono(p: Params, amount: nat, amount': nat, path: seq<string>, path': seq<string>)
    requires amount <= amount' && TotalRate(p, path) <= TotalRate(p, path') && FeeFits(p, amount', path')
    requires path != [] && path' != [] && amount > 0
    ensures SellFee(p, amount, path).Ok? && SellFee(p, amount', path').Ok?
    ensures SellFee(p, amount, path).fee <= SellFee(p, amount', path').fee
  {
    RateFeeMono(amount, amount', TotalRate(p, path), TotalRate(p, path'));
    SellFeeValue(p, amount, path);
    SellFeeValue(p, amount', path');
  }

  lemma {:induction false} TotalRateSum(p: Params, path: seq<string>, rest: seq<string>)
    ensures TotalRate(p, path + rest) == TotalRate(p, path) + TotalRate(p, rest)
    decreases |rest|
  {
    if rest == [] {
      assert path + rest == path;
    } else {
      assert (path + rest)[..|path + rest| - 1] == path + rest[..|rest| - 1];
      TotalRateSum(p, path, rest[..|rest| - 1]);
    }
  }

  lemma SplitRate(amount: nat, a: nat, b: nat)
    ensures CeilDiv(amount * (a + b), BPS) <= CeilDiv(amount * a, BPS) + CeilDiv(amount * b, BPS)
                                           <= CeilDiv(amount * (a + b), BPS) + 1
  {
    assert amount * (a + b) == amount * a + amount * b;
    CeilDivAdd(amount * a, amount * b, BPS);
  }

  /** Paying for a path in two pieces costs the fee of the whole path, or one unit more. */
  lemma SellFeeSplit(p: Params, amount: nat, path: seq<string>, rest: seq<string>)
    requires path != [] && rest != [] && amount > 0 && FeeFits(p, amount, path + rest)
    ensures SellFee(p, amount, path + rest).Ok? && SellFee(p, amount, path).Ok? && SellFee(p, amount, rest).Ok?
    ensures SellFee(p, amount, path + rest).fee
         <= SellFee(p, amount, path).fee + SellFee(p, amount, rest).fee
         <= SellFee(p, amount, path + rest).fee + 1
  {
    TotalRateSum(p, path, rest);
    var a, b := TotalRate(p, path), TotalRate(p, rest);
    RateFeeMono(amount, amount, a, a + b);
    RateFeeMono(amount, amount, b, a + b);
    SellFeeValue(p, amount, path);
    SellFeeValue(p, amount, rest);
    SellFeeValue(p, amount, path + rest);
    SplitRate(amount, a, b);
  }

  // ---------- the price against PRV ----------

  /** A pool of the sold token and PRV: its reserves of both, and their normalised product. */
  datatype Price = Price(token: nat, prv: nat, liquidity: nat)

  function PairedToken(pair: PoolState): Token {
    if pair.token0 == PRV then pair.token1 else if pair.token1 == PRV then pair.token0 else NO_TOKEN
  }

  /** Reserves, the token's first; both zero for a pool without PRV. */
  function Reserves(pair: PoolState): (nat, nat) {
    if pair.token0 == PRV then (pair.virtual1, pair.virtual0)
    else if pair.token1 == PRV then (pair.virtual0, pair.virtual1)
    else (0, 0)
  }

  /** The greatest quotient that times d is at most n. */
  ghost predicate IsFloor(q: nat, n: nat, d: nat) { q * d <= n < (q + 1) * d }

  /** The product of the reserves, scaled down by the amplifier twice. */
  ghost predicate IsNormalized(token: nat, prv: nat, amplifier: nat, liquidity: nat) {
    exists once: nat :: IsFloor(once, token * prv * 10000, amplifier) && IsFloor(liquidity, once * 10000, amplifier)
  }

  lemma FloorIs(n: nat, d: nat)
    requires d > 0
    ensures IsFloor(n / d, n, d)
  {
    assert n == (n / d) * d + n % d;
    assert (n / d + 1) * d == (n / d) * d + d;
  }

  function Normalized(token: nat, prv: nat, amplifier: nat): nat
    requires amplifier > 0
  {
    token * prv * BASE_AMPLIFIER / amplifier * BASE_AMPLIFIER / amplifier
  }

  lemma NormalizedIs(token: nat, prv: nat, amplifier: nat)
    requires amplifier > 0
    ensures IsNormalized(token, prv, amplifier, Normalized(token, prv, amplifier))
  {
    hide IsFloor;
    var once := token * prv * BASE_AMPLIFIER / amplifier;
    FloorIs(token * prv * BASE_AMPLIFIER, amplifier);
    FloorIs(once * BASE_AMPLIFIER, amplifier);
  }

  function PriceOf(pair: PoolState): Price
    requires pair.amplifier > 0
  {
    var (t, v) := Reserves(pair);
    Price(t, v, Normalized(t, v, pair.amplifier))
  }

  /**
   A pool of the token and PRV with enough PRV, told from its fields: its reserves of both
   and its liquidity. The empty token stands for a pool without PRV, which is never deep.
   */
  ghost predicate Prices(params: Params, sellToken: Token, pair: PoolState, price: Price) {
    && ((pair.token0 == PRV && pair.token1 == sellToken && price.token == pair.virtual1 && price.prv == pair.virtual0)
        || (pair.token0 != PRV && pair.token1 == PRV && pair.token0 == sellToken && price.token == pair.virtual0 && price.prv == pair.virtual1)
        || (pair.token0 != PRV && pair.token1 != PRV && sellToken == NO_TOKEN && price.token == 0 && price.prv == 0))
    && price.prv * 10000 >= params.minPRVReserve * pair.amplifier
    && IsNormalized(price.token, price.prv, pair.amplifier, price.liquidity)
  }

  lemma CandidatePrices(params: Params, sellToken: Token, pair: PoolState, price: Price)
    requires pair.amplifier > 0
    ensures Prices(params, sellToken, pair, price) <==> IsCandidate(params, sellToken, pair) && price == PriceOf(pair)
  {
    hide Normalized, IsNormalized;
    var (t, v) := Reserves(pair);
    NormalizedIs(t, v, pair.amplifier);
    if Prices(params, sellToken, pair, price) {
      OneNormalized(price.token, price.prv, pair.amplifier, price.liquidity, Normalized(price.token, price.prv, pair.amplifier));
    }
  }

  lemma OneFloor(a: nat, b: nat, n: nat, d: nat)
    requires IsFloor(a, n, d) && IsFloor(b, n, d)
    ensures a == b
  {
    if a < b { MulMono(a + 1, b, d); }
    if b < a { MulMono(b + 1, a, d); }
  }

  lemma OneNormalized(token: nat, prv: nat, amplifier: nat, a: nat, b: nat)
    requires IsNormalized(token, prv, amplifier, a) && IsNormalized(token, prv, amplifier, b)
    ensures a == b
  {
    hide IsFloor;
    var x: nat :| IsFloor(x, token * prv * 10000, amplifier) && IsFloor(a, x * 10000, amplifier);
    var y: nat :| IsFloor(y, token * prv * 10000, amplifier) && IsFloor(b, y * 10000, amplifier);
    OneFloor(x, y, token * prv * 10000, amplifier);
    OneFloor(a, b, x * 10000, amplifier);
  }

  /** The price of some pool, and none deeper, nor as deep and of a higher token/PRV rate; all zero only if no pool is deep. */
  ghost predicate IsBestPrice(state: PdexState, sellToken: Token, r: Price) {
    && (r == Price(0, 0, 0) || exists id :: id in state.poolPairs && Prices(state.params, sellToken, state.poolPairs[id], r))
    && (forall id, c :: id in state.poolPairs && Prices(state.params, sellToken, state.poolPairs[id], c) ==>
          c.liquidity < r.liquidity || c.liquidity == r.liquidity == 0
          || (c.liquidity == r.liquidity && c.token * r.prv <= r.token * c.prv))
  }

  lemma SelectionIsBestPrice(state: PdexState, sellToken: Token, r: Price)
    requires AmplifiersPositive(state)
    ensures IsSelection(state, sellToken, state.poolPairs.Keys, r) <==> IsBestPrice(state, sellToken, r)
  {
    hide Prices, IsCandidate, PriceOf;
    forall id, c | id in state.poolPairs
      ensures Prices(state.params, sellToken, state.poolPairs[id], c)
         <==> IsCandidate(state.params, sellToken, state.poolPairs[id]) && c == PriceOf(state.poolPairs[id])
    {
      CandidatePrices(state.params, sellToken, state.poolPairs[id], c);
    }
  }

  /** The pools that can price the token: those paired with PRV that hold enough of it. */
  predicate IsCandidate(params: Params, sellToken: Token, pair: PoolState) {
    PairedToken(pair) == sellToken && Reserves(pair).1 * BASE_AMPLIFIER >= params.minPRVReserve * pair.amplifier
  }

  ghost predicate AmplifiersPositive(state: PdexState) {
    forall id :: id in state.poolPairs ==> state.poolPairs[id].amplifier > 0
  }

  /** `r` is what the pools in `ids` leave selected, in whatever order they are visited. */
  ghost predicate IsSelection(state: PdexState, sellToken: Token, ids: set<string>, r: Price)
    requires AmplifiersPositive(state) && ids <= state.poolPairs.Keys
  {
    && (r == Price(0, 0, 0)
        || exists id :: id in ids && IsCandidate(state.params, sellToken, state.poolPairs[id]) && r == PriceOf(state.poolPairs[id]))
    && (forall id :: id in ids && IsCandidate(state.params, sellToken, state.poolPairs[id]) ==>
          AtMost(PriceOf(state.poolPairs[id]), r))
  }

  /** No higher liquidity, nor, at the same positive liquidity, a higher token/PRV rate. */
  predicate AtMost(c: Price, r: Price) {
    c.liquidity <= r.liquidity && (c.liquidity == r.liquidity > 0 ==> c.token * r.prv <= r.token * c.prv)
  }

  predicate Replaces(c: Price, r: Price) {
    r.prv == 0 || c.liquidity > r.liquidity || (c.liquidity == r.liquidity && c.token * r.prv > r.token * c.prv)
  }

  lemma NormalizedPositive(token: nat, prv: nat, amplifier: nat)
    requires amplifier > 0
    ensures token == 0 || prv == 0 ==> Normalized(token, prv, amplifier) == 0
  {
    if token == 0 || prv == 0 {
      assert token * prv == 0;
      assert 0 / amplifier == 0;
    }
  }

  lemma RatesCompose(c: Price, r: Price, n: Price)
    requires r.prv > 0 && c.token * r.prv <= r.token * c.prv && n.token * r.prv > r.token * n.prv
    ensures c.token * n.prv <= n.token * c.prv
  {
    MulMono(c.token * r.prv, r.token * c.prv, n.prv);
    MulMono(r.token * n.prv, n.token * r.prv, c.prv);
    assert (c.token * r.prv) * n.prv == (c.token * n.prv) * r.prv;
    assert (r.token * c.prv) * n.prv == (r.token * n.prv) * c.prv;
    assert (n.token * r.prv) * c.prv == (n.token * c.prv) * r.prv;
    CancelLeq(c.token * n.prv, n.token * c.prv, r.prv);
  }

  lemma CancelLeq(x: nat, y: nat, d: nat)
    requires d > 0 && x * d <= y * d
    ensures x <= y
  {
    if y < x { MulMono(y + 1, x, d); }
  }

  /** A replacement is at least as good as everything the replaced price was as good as. */
  lemma ReplacesKeepsMax(c: Price, r: Price, n: Price)
    requires Replaces(n, r) && AtMost(c, r) && (r.prv == 0 ==> r.liquidity == 0)
    requires n.liquidity > 0 && r.prv == 0 ==> c.liquidity == 0
    ensures AtMost(c, n)
  {
    if c.liquidity == n.liquidity > 0 && r.prv > 0 {
      RatesCompose(c, r, n);
    }
  }

  lemma SelectionPositive(state: PdexState, sellToken: Token, ids: set<string>, r: Price)
    requires AmplifiersPositive(state) && ids <= state.poolPairs.Keys
    requires IsSelection(state, sellToken, ids, r)
    ensures r.prv == 0 || r.token == 0 ==> r.liquidity == 0
  {
    if r != Price(0, 0, 0) {
      var k :| k in ids && IsCandidate(state.params, sellToken, state.poolPairs[k]) && r == PriceOf(state.poolPairs[k]);
      NormalizedPositive(r.token, r.prv, state.poolPairs[k].amplifier);
    }
  }

  lemma SelectionStep(state: PdexState, sellToken: Token, ids: set<string>, r: Price, id: string)
    requires AmplifiersPositive(state) && ids <= state.poolPairs.Keys && id in state.poolPairs
    requires IsSelection(state, sellToken, ids, r)
    ensures var c := PriceOf(state.poolPairs[id]);
      IsSelection(state, sellToken, ids + {id},
                  if IsCandidate(state.params, sellToken, state.poolPairs[id]) && Replaces(c, r) then c else r)
  {
    var pair := state.poolPairs[id];
    var n := PriceOf(pair);
    SelectionPositive(state, sellToken, ids, r);
    if IsCandidate(state.params, sellToken, pair) && Replaces(n, r) {
      forall k | k in ids && IsCandidate(state.params, sellToken, state.poolPairs[k])
        ensures AtMost(PriceOf(state.poolPairs[k]), n)
      {
        ReplacesKeepsMax(PriceOf(state.poolPairs[k]), r, n);
      }
    } else if r != Price(0, 0, 0) {
      var k :| k in ids && IsCandidate(state.params, sellToken, state.poolPairs[k]) && r == PriceOf(state.poolPairs[k]);
      assert k in ids + {id};
    }
  }

  /** The pools are visited in the map's own order, which may be any. */
  method GetPriceAgainstPRV(sellToken: Token, state: PdexState) returns (r: Price)
    requires AmplifiersPositive(state)
    ensures IsSelection(state, sellToken, state.poolPairs.Keys, r)
    ensures IsBestPrice(state, sellToken, r)
  {
    hide Normalized, IsBestPrice;
    r := Price(0, 0, 0);
    var todo := state.poolPairs.Keys;
    while todo != {}
      invariant todo <= state.poolPairs.Keys
      invariant IsSelection(state, sellToken, state.poolPairs.Keys - todo, r)
    {
      var id :| id in todo;
      var pair := state.poolPairs[id];
      ghost var done := state.poolPairs.Keys - todo;
      SelectionStep(state, sellToken, done, r, id);
      todo := todo - {id};
      assert state.poolPairs.Keys - todo == done + {id};
      var tokenID, token, prv := NO_TOKEN, 0, 0;
      if pair.token0 == PRV {
        tokenID, token, prv := pair.token1, pair.virtual1, pair.virtual0;
      } else if pair.token1 == PRV {
        tokenID, token, prv := pair.token0, pair.virtual0, pair.virtual1;
      }
      if tokenID != sellToken || prv * BASE_AMPLIFIER < state.params.minPRVReserve * pair.amplifier {
        continue;
      }
      var normalized := Normalized(token, prv, pair.amplifier);
      var isChosenPool := false;
      if r.prv == 0 {
        isChosenPool := true;
      } else if normalized > r.liquidity {
        isChosenPool := true;
      } else if normalized == r.liquidity {
        if token * r.prv > r.token * prv {
          isChosenPool := true;
        }
      }
      if isChosenPool {
        r := Price(token, prv, normalized);
      }
    }
    SelectionIsBestPrice(state, sellToken, r);
  }

  // ---------- the fee in PRV ----------

  /** `100 - discount` as a `uint`. */
  function Remaining(p: Params): nat {
    (100 - p.prvDiscountPercent) % TWO_64
  }

  function WeightedFee(p: Params, amount: nat, path: seq<string>): nat {
    CeilDiv(amount * (TotalRate(p, path) % TWO_64), BPS)
  }

  /** The fee in PRV at a given price; the price's liquidity is only looked at as a `uint64`. */
  function PrvFeeAt(p: Params, amount: nat, path: seq<string>, price: Price): Result {
    if path == [] then Err("tradePath is empty")
    else if amount == 0 then Err("sellAmount is 0")
    else if price.liquidity % TWO_64 == 0 || price.token == 0 then Err("Could not find pair sellToken - PRV")
    else Ok(CeilDiv(WeightedFee(p, amount, path) * price.prv * Remaining(p), price.token * 100) % TWO_64)
  }

  lemma SameRateSameCeil(w: nat, k: nat, a: Price, b: Price)
    requires a.token > 0 && b.token > 0 && a.token * b.prv == b.token * a.prv
    ensures CeilDiv(w * a.prv * k, a.token * 100) <= CeilDiv(w * b.prv * k, b.token * 100)
  {
    var q := CeilDiv(w * b.prv * k, b.token * 100);
    CeilDivLeast(w * b.prv * k, b.token * 100, q);
    MulMono(w * b.prv * k, q * (b.token * 100), a.token);
    assert (w * b.prv * k) * a.token == (w * k) * (a.token * b.prv);
    assert (w * a.prv * k) * b.token == (w * k) * (b.token * a.prv);
    assert (q * (b.token * 100)) * a.token == (q * (a.token * 100)) * b.token;
    CancelLeq(w * a.prv * k, q * (a.token * 100), b.token);
    CeilDivLeast(w * a.prv * k, a.token * 100, q);
  }

  /**
   Whatever order the pools are visited in, and even when tied pools leave
   different reserves selected, the fee in PRV is the same.
   */
  lemma PrvFeeOrderIndependent(state: PdexState, sellToken: Token, amount: nat, path: seq<string>, a: Price, b: Price)
    requires AmplifiersPositive(state)
    requires IsSelection(state, sellToken, state.poolPairs.Keys, a)
    requires IsSelection(state, sellToken, state.poolPairs.Keys, b)
    ensures a.liquidity == b.liquidity
    ensures a.liquidity > 0 ==> a.token > 0 && b.token > 0 && a.token * b.prv == b.token * a.prv
    ensures PrvFeeAt(state.params, amount, path, a) == PrvFeeAt(state.params, amount, path, b)
  {
    SelectionBounds(state, sellToken, a, b);
    SelectionBounds(state, sellToken, b, a);
    if a.liquidity > 0 {
      var w, k := WeightedFee(state.params, amount, path), Remaining(state.params);
      SameRateSameCeil(w, k, a, b);
      SameRateSameCeil(w, k, b, a);
    }
  }

  lemma SelectionBounds(state: PdexState, sellToken: Token, a: Price, b: Price)
    requires AmplifiersPositive(state)
    requires IsSelection(state, sellToken, state.poolPairs.Keys, a)
    requires IsSelection(state, sellToken, state.poolPairs.Keys, b)
    ensures AtMost(a, b)
    ensures a.liquidity > 0 ==> a.token > 0 && a.prv > 0
  {
    SelectionPositive(state, sellToken, state.poolPairs.Keys, a);
    if a != Price(0, 0, 0) {
      var id :| id in state.poolPairs && IsCandidate(state.params, sellToken, state.poolPairs[id])
                && a == PriceOf(state.poolPairs[id]);
    }
  }

  /** w is the least weighted fee that covers the path's total rate. */
  ghost predicate IsLeastWeighted(w: nat, amount: nat, rate: nat) {
    forall v: nat :: v * 10000 >= amount * rate <==> v >= w
  }

  /** fee is the least PRV that, at reserves of `token` and `prv` and without the discount, is worth w. */
  ghost predicate IsLeastPrv(fee: nat, w: nat, token: nat, prv: nat, discount: nat) {
    forall k: nat :: k * (token * 100) >= w * prv * (100 - discount) <==> k >= fee
  }

  /** What is charged at those reserves: the fee, as a machine word. */
  ghost predicate Charges(p: Params, amount: nat, path: seq<string>, token: nat, prv: nat, charged: nat) {
    exists w, fee: nat ::
      && IsLeastWeighted(w, amount, TotalRate(p, path)) && IsLeastPrv(fee, w, token, prv, p.prvDiscountPercent)
      && charged == fee % TWO_64
  }

  lemma PrvFeeCharges(p: Params, amount: nat, path: seq<string>, price: Price)
    requires TotalRate(p, path) < TWO_64 && p.prvDiscountPercent <= 100 && price.token > 0
    requires path != [] && amount > 0 && price.liquidity % TWO_64 != 0
    ensures var r := PrvFeeAt(p, amount, path, price); r.Ok? && Charges(p, amount, path, price.token, price.prv, r.fee)
  {
    hide CeilDiv, IsLeastWeighted, IsLeastPrv;
    var rate, k := TotalRate(p, path), 100 - p.prvDiscountPercent;
    var w := CeilDiv(amount * rate, BPS);
    var fee := CeilDiv(w * price.prv * k, price.token * 100);
    LeastWeighted(amount, rate);
    LeastPrv(w, price.token, price.prv, p.prvDiscountPercent);
    assert rate % TWO_64 == rate && Remaining(p) == k;
  }

  lemma LeastWeighted(amount: nat, rate: nat)
    ensures IsLeastWeighted(CeilDiv(amount * rate, BPS), amount, rate)
  {
    hide CeilDiv;
    forall v: nat ensures v * 10000 >= amount * rate <==> v >= CeilDiv(amount * rate, BPS) {
      CeilDivLeast(amount * rate, BPS, v);
    }
  }

  lemma LeastPrv(w: nat, token: nat, prv: nat, discount: nat)
    requires token > 0 && discount <= 100
    ensures IsLeastPrv(CeilDiv(w * prv * (100 - discount), token * 100), w, token, prv, discount)
  {
    hide CeilDiv;
    var n, d := w * prv * (100 - discount), token * 100;
    forall k: nat ensures k * (token * 100) >= w * prv * (100 - discount) <==> k >= CeilDiv(n, d) {
      CeilDivLeast(n, d, k);
    }
  }

  /** PRV is worth itself; any other token has the price of one of its best pools. */
  ghost predicate UsesPrice(state: PdexState, sellToken: Token, price: Price) {
    if sellToken == PRV then price == Price(1, 1, 1) else IsBestPrice(state, sellToken, price)
  }

  /** The price the estimate uses: one to one for PRV itself, a selected pool's otherwise. */
  ghost predicate IsPrice(state: PdexState, sellToken: Token, price: Price)
    requires AmplifiersPositive(state)
  {
    if sellToken == PRV then price == Price(1, 1, 1) else IsSelection(state, sellToken, state.poolPairs.Keys, price)
  }

  method EstimatedFeeInPRV(sellAmount: nat, sellToken: Token, path: seq<string>, state: PdexState) returns (r: Result)
    requires AmplifiersPositive(state)
    ensures forall price :: IsPrice(state, sellToken, price) ==> r == PrvFeeAt(state.params, sellAmount, path, price)
    ensures exists price :: IsPrice(state, sellToken, price)
    // the same, told from the fields of the pools
    ensures exists price :: UsesPrice(state, sellToken, price)
    ensures forall price :: UsesPrice(state, sellToken, price) ==>
              (r.Err? <==> path == [] || sellAmount == 0 || price.liquidity % TWO_64 == 0)
    ensures r.Ok? && TotalRate(state.params, path) < TWO_64 && state.params.prvDiscountPercent <= 100 ==>
              forall price :: UsesPrice(state, sellToken, price) ==> Charges(state.params, sellAmount, path, price.token, price.prv, r.fee)
  {
    hide IsPrice, UsesPrice, PrvFeeAt, Charges, TotalRate, AmplifiersPositive;
    var rate := PriceUsed(sellToken, state);
    forall price ensures IsPrice(state, sellToken, price) <==> UsesPrice(state, sellToken, price) {
      PricesAgree(state, sellToken, price);
    }
    forall price | IsPrice(state, sellToken, price)
      ensures PrvFeeAt(state.params, sellAmount, path, rate) == PrvFeeAt(state.params, sellAmount, path, price)
      ensures PrvFeeAt(state.params, sellAmount, path, price).Err? <==> path == [] || sellAmount == 0 || price.liquidity % TWO_64 == 0
      ensures PrvFeeAt(state.params, sellAmount, path, price).Ok? && TotalRate(state.params, path) < TWO_64 && state.params.prvDiscountPercent <= 100 ==>
                Charges(state.params, sellAmount, path, price.token, price.prv, PrvFeeAt(state.params, sellAmount, path, price).fee)
    {
      SameFee(state, sellToken, sellAmount, path, rate, price);
    }
    r := FeeAtPrice(sellAmount, path, state.params, rate);
  }

  lemma PricesAgree(state: PdexState, sellToken: Token, price: Price)
    requires AmplifiersPositive(state)
    ensures IsPrice(state, sellToken, price) <==> UsesPrice(state, sellToken, price)
  {
    hide IsSelection, IsBestPrice;
    SelectionIsBestPrice(state, sellToken, price);
  }

  lemma SameFee(state: PdexState, sellToken: Token, sellAmount: nat, path: seq<string>, rate: Price, price: Price)
    requires AmplifiersPositive(state) && IsPrice(state, sellToken, rate) && IsPrice(state, sellToken, price)
    ensures PrvFeeAt(state.params, sellAmount, path, rate) == PrvFeeAt(state.params, sellAmount, path, price)
    ensures PrvFeeAt(state.params, sellAmount, path, price).Err? <==> path == [] || sellAmount == 0 || price.liquidity % TWO_64 == 0
    ensures PrvFeeAt(state.params, sellAmount, path, price).Ok? && TotalRate(state.params, path) < TWO_64 && state.params.prvDiscountPercent <= 100 ==>
              Charges(state.params, sellAmount, path, price.token, price.prv, PrvFeeAt(state.params, sellAmount, path, price).fee)
  {
    hide CeilDiv, IsSelection, Charges, AtMost;
    if sellToken != PRV {
      SelectionBounds(state, sellToken, price, price);
      PrvFeeOrderIndependent(state, sellToken, sellAmount, path, rate, price);
    }
    if PrvFeeAt(state.params, sellAmount, path, price).Ok? && TotalRate(state.params, path) < TWO_64 && state.params.prvDiscountPercent <= 100 {
      PrvFeeCharges(state.params, sellAmount, path, price);
    }
  }

  method PriceUsed(sellToken: Token, state: PdexState) returns (rate: Price)
    requires AmplifiersPositive(state)
    ensures IsPrice(state, sellToken, rate) && (rate.liquidity % TWO_64 == 0 || rate.token > 0)
  {
    hide IsSelection, IsBestPrice, AtMost;
    rate := GetPriceAgainstPRV(sellToken, state);
    if rate.liquidity > 0 {
      SelectionBounds(state, sellToken, rate, rate);
    }
    if sellToken == PRV {
      rate := Price(1, 1, 1);
    }
  }

  /** The rest of the estimate, once the price is known. */
  method FeeAtPrice(sellAmount: nat, path: seq<string>, params: Params, rate: Price) returns (r: Result)
    requires rate.liquidity % TWO_64 == 0 || rate.token > 0
    ensures r == PrvFeeAt(params, sellAmount, path, rate)
  {
    hide CeilDiv;
    if |path| == 0 {
      return Err("tradePath is empty");
    }
    if sellAmount == 0 {
      return Err("sellAmount is 0");
    }
    var feeRateBPS := PathRate(params, path);
    var weightedFee := CeilDiv(sellAmount * feeRateBPS, BPS);
    if rate.liquidity % TWO_64 == 0 {
      return Err("Could not find pair sellToken - PRV");
    }
    var prvFee := CeilDiv(weightedFee * rate.prv * Remaining(params), rate.token * 100);
    r := Ok(prvFee % TWO_64);
  }

  // ---------- a "max" trade ----------

  datatype MaxQuote = MaxQuote(sellAmount: nat, fee: nat)

  function FeeOrZero(r: Result): nat {
    if r.Ok? then r.fee else 0
  }

  function PrvFee(p: Params, amount: nat, path: seq<string>): Result {
    PrvFeeAt(p, amount, path, Price(1, 1, 1))
  }

  /** The fee reported for PRV has a margin of one percent. */
  function WithMargin(fee: nat): nat {
    (fee + fee / 100) % TWO_64
  }

  /** The second route costs no more than the first one, whose fee fits a machine word. */
  predicate SellTokenQuotable(p: Params, sellAmount: nat, route: seq<string>, newRoute: seq<string>) {
    0 < sellAmount < TWO_64 && route != [] && FeeFits(p, sellAmount, route) && TotalRate(p, newRoute) <= TotalRate(p, route)
  }

  predicate PrvQuotable(p: Params, sellAmount: nat, route: seq<string>, newRoute: seq<string>) {
    0 < sellAmount < TWO_64 && route != [] && PrvFeeFits(p, sellAmount, route) && TotalRate(p, newRoute) <= TotalRate(p, route)
  }

  /** The ordinary case: rates up to 10000 basis points, a discount up to 100, and room for what is set aside. */
  predicate PrvOrdinary(p: Params, sellAmount: nat, route: seq<string>, newRoute: seq<string>) {
    && 0 < sellAmount && sellAmount + 100 + sellAmount / 100 < TWO_64 && route != []
    && TotalRate(p, newRoute) <= TotalRate(p, route) <= BPS && p.prvDiscountPercent <= 100
  }

  /** Selling everything: the fee of the first route is set aside, and the second route is quoted on the rest. */
  method EstimateMaxInSellToken(sellAmount: nat, route: seq<string>, newRoute: seq<string>, state: PdexState) returns (q: MaxQuote)
    requires sellAmount < TWO_64
    // nothing but the first fee is held back; when it exceeds the amount the subtraction wraps
    ensures var fee := FeeOrZero(SellFee(state.params, sellAmount, route));
      && q.sellAmount + fee == (if fee <= sellAmount then sellAmount else sellAmount + TWO_64)
      && q.fee == FeeOrZero(SellFee(state.params, q.sellAmount, if fee > 0 then newRoute else route))
    // the quote fits the balance
    ensures SellTokenQuotable(state.params, sellAmount, route, newRoute) ==>
              (q.sellAmount + q.fee <= sellAmount <==> TotalRate(state.params, route) <= BPS)
  {
    hide SellFee, FeeFits;
    var r := EstimateFeeInSellToken(sellAmount, route, state);
    q := MaxQuote(sellAmount, FeeOrZero(r));
    if q.fee > 0 {
      ghost var fee := q.fee;
      var newSellAmount := (sellAmount - q.fee) % TWO_64;
      var r' := EstimateFeeInSellToken(newSellAmount, newRoute, state);
      q := MaxQuote(newSellAmount, FeeOrZero(r'));
      SellFeeIsWord(state.params, sellAmount, route);
      Subtracted(sellAmount, fee);
    }
    if SellTokenQuotable(state.params, sellAmount, route, newRoute) {
      MaxInSellTokenFits(state.params, sellAmount, route, newRoute);
      if FeeOrZero(r) == 0 {
        NoFeeNoRate(state.params, sellAmount, route);
      }
    }
  }

  /** The same when the sold token is PRV: a further 100 units and one percent of the fee are set aside. */
  method EstimateMaxInPRV(sellAmount: nat, route: seq<string>, newRoute: seq<string>, state: PdexState) returns (q: MaxQuote)
    requires AmplifiersPositive(state) && sellAmount < TWO_64
    ensures var fee := FeeOrZero(PrvFee(state.params, sellAmount, route));
      var aside := if WithMargin(fee) > 0 then fee + 100 + fee / 100 else 0;
      && (aside < TWO_64 ==> q.sellAmount + aside == if aside <= sellAmount then sellAmount else sellAmount + TWO_64)
      && q.fee == WithMargin(FeeOrZero(PrvFee(state.params, q.sellAmount, if WithMargin(fee) > 0 then newRoute else route)))
    ensures var fee := FeeOrZero(PrvFee(state.params, sellAmount, route));
      PrvQuotable(state.params, sellAmount, route, newRoute) && fee + 100 + fee / 100 < TWO_64 ==>
        (q.sellAmount + q.fee <= sellAmount <==> fee == 0 || fee + 100 + fee / 100 <= sellAmount)
    ensures var fee := FeeOrZero(PrvFee(state.params, sellAmount, route));
      PrvOrdinary(state.params, sellAmount, route, newRoute) ==>
        (q.sellAmount + q.fee <= sellAmount <==> fee == 0 || fee + 100 + fee / 100 <= sellAmount)
  {
    hide PrvFee, PrvFeeFits, AmplifiersPositive, PrvFeeAt;
    var r := EstimatedFeeInPRV(sellAmount, PRV, route, state);
    OwnPrice(state, sellAmount, route);
    var fee := FeeOrZero(r);
    q := MaxQuote(sellAmount, (fee + fee / 100) % TWO_64);
    if q.fee > 0 {
      var newSellAmount := (sellAmount - fee - 100 - fee / 100) % TWO_64;
      var r' := EstimatedFeeInPRV(newSellAmount, PRV, newRoute, state);
      OwnPrice(state, newSellAmount, newRoute);
      q := MaxQuote(newSellAmount, WithMargin(FeeOrZero(r')));
      if fee + 100 + fee / 100 < TWO_64 {
        Subtracted(sellAmount, fee + 100 + fee / 100);
      }
    }
    if PrvOrdinary(state.params, sellAmount, route, newRoute) {
      OrdinaryIsQuotable(state.params, sellAmount, route, newRoute);
    }
    if PrvQuotable(state.params, sellAmount, route, newRoute) && fee + 100 + fee / 100 < TWO_64 {
      MaxInPRVFits(state.params, sellAmount, route, newRoute);
    }
  }

  /** PRV costs itself. */
  lemma OwnPrice(state: PdexState, amount: nat, path: seq<string>)
    requires AmplifiersPositive(state)
    ensures IsPrice(state, PRV, Price(1, 1, 1)) && PrvFeeAt(state.params, amount, path, Price(1, 1, 1)) == PrvFee(state.params, amount, path)
  {
  }

  lemma Subtracted(amount: nat, aside: nat)
    requires amount < TWO_64 && aside < TWO_64
    ensures (amount - aside) % TWO_64 + aside == if aside <= amount then amount else amount + TWO_64
  {
  }

  lemma SellFeeIsWord(p: Params, amount: nat, path: seq<string>)
    ensures FeeOrZero(SellFee(p, amount, path)) < TWO_64
  {
  }

  lemma NoFeeNoRate(p: Params, amount: nat, path: seq<string>)
    requires FeeFits(p, amount, path) && path != [] && amount > 0 && FeeOrZero(SellFee(p, amount, path)) == 0
    ensures TotalRate(p, path) == 0
  {
    SellFeeIsLeast(p, amount, path, 0);
  }

  lemma SellFeeAtMost(p: Params, amount: nat, path: seq<string>)
    requires TotalRate(p, path) <= BPS && amount < TWO_64
    ensures CeilDiv(amount * TotalRate(p, path), BPS) <= amount
    ensures FeeOrZero(SellFee(p, amount, path)) <= CeilDiv(amount * TotalRate(p, path), BPS)
    ensures path != [] && amount > 0 ==> SellFee(p, amount, path) == Ok(CeilDiv(amount * TotalRate(p, path), BPS))
  {
    NetExact(amount, TotalRate(p, path));
    if path != [] && amount > 0 { SellFeeValue(p, amount, path); }
  }

  lemma FeeOfRest(sellAmount: nat, rate: nat, newRate: nat)
    requires newRate <= rate <= BPS
    ensures var fee := CeilDiv(sellAmount * rate, BPS);
      fee <= sellAmount && CeilDiv((sellAmount - fee) * newRate, BPS) <= fee
  {
    MulRate(sellAmount, rate);
    CeilDivLeast(sellAmount * rate, BPS, sellAmount);
    RateFeeMono(sellAmount - CeilDiv(sellAmount * rate, BPS), sellAmount, newRate, rate);
  }

  /** A "max" trade in the sold token fits the balance exactly when the total rate is at most 10000 basis points. */
  lemma MaxInSellTokenFits(p: Params, sellAmount: nat, route: seq<string>, newRoute: seq<string>)
    requires 0 < sellAmount < TWO_64 && route != []
    requires FeeFits(p, sellAmount, route) && TotalRate(p, newRoute) <= TotalRate(p, route)
    ensures SellFee(p, sellAmount, route).Ok?
    ensures var rest := (sellAmount - SellFee(p, sellAmount, route).fee) % TWO_64;
      rest + FeeOrZero(SellFee(p, rest, newRoute)) <= sellAmount <==> TotalRate(p, route) <= BPS
  {
    hide CeilDiv, SellFee;
    SellFeeValue(p, sellAmount, route);
    var rate := TotalRate(p, route);
    if rate <= BPS {
      RestFits(p, sellAmount, rate, newRoute);
    } else {
      FeeBeyond(sellAmount, rate);
      WrappedRest(sellAmount, CeilDiv(sellAmount * rate, BPS));
    }
  }

  lemma RestFits(p: Params, sellAmount: nat, rate: nat, newRoute: seq<string>)
    requires sellAmount < TWO_64 && TotalRate(p, newRoute) <= rate <= BPS
    ensures var rest := (sellAmount - CeilDiv(sellAmount * rate, BPS)) % TWO_64;
      rest + FeeOrZero(SellFee(p, rest, newRoute)) <= sellAmount
  {
    hide CeilDiv, SellFee;
    var fee := CeilDiv(sellAmount * rate, BPS);
    FeeOfRest(sellAmount, rate, TotalRate(p, newRoute));
    var rest := sellAmount - fee;
    assert (sellAmount - fee) % TWO_64 == rest;
    SellFeeAtMost(p, rest, newRoute);
  }

  lemma FeeBeyond(amount: nat, rate: nat)
    requires rate > BPS && amount > 0
    ensures CeilDiv(amount * rate, BPS) > amount
  {
    hide CeilDiv;
    CeilDivLeast(amount * rate, BPS, amount);
    assert amount * rate == amount * BPS + amount * (rate - BPS);
    assert amount * (rate - BPS) > 0;
  }

  lemma WrappedRest(amount: nat, fee: nat)
    requires amount < fee < TWO_64
    ensures (amount - fee) % TWO_64 > amount
  {
  }

  /** The exact fee for sold PRV. */
  function ExactPrvFee(p: Params, amount: nat, path: seq<string>): nat
    requires p.prvDiscountPercent <= 100
  {
    CeilDiv(CeilDiv(amount * TotalRate(p, path), BPS) * (100 - p.prvDiscountPercent), 100)
  }

  /** Neither the total rate nor the fee overflows a machine word. */
  predicate PrvFeeFits(p: Params, amount: nat, path: seq<string>) {
    p.prvDiscountPercent <= 100 && TotalRate(p, path) < TWO_64 && ExactPrvFee(p, amount, path) < TWO_64
  }

  /** It fits up to a total rate of 10000 basis points, and is then not more than the amount. */
  lemma UsualPrvFeeFits(p: Params, amount: nat, path: seq<string>)
    requires TotalRate(p, path) <= BPS && p.prvDiscountPercent <= 100 && amount < TWO_64
    ensures PrvFeeFits(p, amount, path) && ExactPrvFee(p, amount, path) <= amount
  {
    hide CeilDiv;
    var w := CeilDiv(amount * TotalRate(p, path), BPS);
    NetExact(amount, TotalRate(p, path));
    MulMono(100 - p.prvDiscountPercent, 100, w);
    CeilDivLeast(w * (100 - p.prvDiscountPercent), 100, w);
  }

  /** So up to that rate all that is asked of a balance is room for what is set aside. */
  lemma OrdinaryIsQuotable(p: Params, sellAmount: nat, route: seq<string>, newRoute: seq<string>)
    requires PrvOrdinary(p, sellAmount, route, newRoute)
    ensures PrvQuotable(p, sellAmount, route, newRoute)
    ensures var fee := FeeOrZero(PrvFee(p, sellAmount, route)); fee <= sellAmount && fee + 100 + fee / 100 < TWO_64
  {
    hide PrvFee, ExactPrvFee;
    UsualPrvFeeFits(p, sellAmount, route);
    PrvFeeExact(p, sellAmount, route);
  }

  lemma PrvFeeExact(p: Params, amount: nat, path: seq<string>)
    requires PrvFeeFits(p, amount, path) && path != [] && amount > 0
    ensures PrvFee(p, amount, path) == Ok(ExactPrvFee(p, amount, path))
  {
    hide CeilDiv;
    var w := CeilDiv(amount * TotalRate(p, path), BPS);
    assert w * 1 * Remaining(p) == w * (100 - p.prvDiscountPercent);
  }

  lemma DiscountedMono(w: nat, w': nat, k: nat)
    requires w <= w'
    ensures CeilDiv(w * k, 100) <= CeilDiv(w' * k, 100)
  {
    MulMono(w, w', k);
    CeilDivMono(w * k, w' * k, 100);
  }

  lemma ExactPrvFeeMono(p: Params, amount: nat, amount': nat, path: seq<string>, path': seq<string>)
    requires amount <= amount' && TotalRate(p, path) <= TotalRate(p, path') && p.prvDiscountPercent <= 100
    ensures ExactPrvFee(p, amount, path) <= ExactPrvFee(p, amount', path')
  {
    hide CeilDiv;
    RateFeeMono(amount, amount', TotalRate(p, path), TotalRate(p, path'));
    DiscountedMono(CeilDiv(amount * TotalRate(p, path), BPS), CeilDiv(amount' * TotalRate(p, path'), BPS),
                   100 - p.prvDiscountPercent);
  }

  lemma PrvFeeMono(p: Params, amount: nat, amount': nat, path: seq<string>, path': seq<string>)
    requires amount <= amount' && TotalRate(p, path) <= TotalRate(p, path')
    requires PrvFeeFits(p, amount', path') && amount' > 0 && path' != []
    ensures FeeOrZero(PrvFee(p, amount, path)) <= FeeOrZero(PrvFee(p, amount', path'))
  {
    hide CeilDiv, ExactPrvFee, WeightedFee, Remaining;
    PrvFeeExact(p, amount', path');
    ExactPrvFeeMono(p, amount, amount', path, path');
    if path != [] && amount > 0 {
      PrvFeeExact(p, amount, path);
    }
  }

  lemma MarginFits(sellAmount: nat, fee: nat, newFee: nat)
    requires sellAmount < TWO_64 && newFee <= fee
    ensures var rest := (sellAmount - fee - 100 - fee / 100) % TWO_64;
      && (fee + 100 + fee / 100 <= sellAmount ==>
            rest == sellAmount - fee - 100 - fee / 100 && rest + WithMargin(newFee) + 100 <= sellAmount)
      && (sellAmount < fee + 100 + fee / 100 < TWO_64 ==> rest > sellAmount)
  {
  }

  /**
   A "max" trade in PRV fits the balance, with at least 100 units to spare,
   when what is set aside is not more than the balance; otherwise (unless it
   exceeds a machine word, too) the subtraction wraps and the quoted amount alone
   exceeds the balance.
   */
  lemma MaxInPRVFits(p: Params, sellAmount: nat, route: seq<string>, newRoute: seq<string>)
    requires 0 < sellAmount < TWO_64 && route != []
    requires PrvFeeFits(p, sellAmount, route) && TotalRate(p, newRoute) <= TotalRate(p, route)
    ensures PrvFee(p, sellAmount, route).Ok?
    ensures var fee := PrvFee(p, sellAmount, route).fee;
      var rest := (sellAmount - fee - 100 - fee / 100) % TWO_64;
      var reported := WithMargin(FeeOrZero(PrvFee(p, rest, newRoute)));
      && (fee + 100 + fee / 100 <= sellAmount ==> rest + reported + 100 <= sellAmount)
      && (sellAmount < fee + 100 + fee / 100 < TWO_64 ==> rest > sellAmount)
  {
    hide PrvFee, PrvFeeFits;
    PrvFeeExact(p, sellAmount, route);
    var fee := PrvFee(p, sellAmount, route).fee;
    if fee + 100 + fee / 100 <= sellAmount {
      var rest := sellAmount - fee - 100 - fee / 100;
      PrvFeeMono(p, rest, sellAmount, newRoute, route);
      MarginFits(sellAmount, fee, FeeOrZero(PrvFee(p, rest, newRoute)));
    } else {
      MarginFits(sellAmount, fee, fee);
    }
  }
}
