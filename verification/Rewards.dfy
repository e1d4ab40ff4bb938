/**
 Liquidity rewards (chainsynker/utils.go, recomputeLPFee; chainsynker/beacon.go,
 extractLqReward): accumulators per unit of share grow, a pool and each of its shares are
 credited the floor of growth times amount over a fixed base.
 */
module Rewards {
  import opened Types

  type TokenId = string

  /** Accumulators per token; a missing token counts as 0. */
  type Accumulators = map<TokenId, int>

  datatype Share = Share(amount: nat, lmLocked: nat, tradingFees: map<TokenId, nat>, lastLp: Accumulators, lastLm: Accumulators)

  datatype Pool = Pool(shareAmount: nat, lmLocked: nat, lp: Accumulators, lm: Accumulators)

  /** Unsigned 64-bit subtraction. */
  function Sub64(a: nat, b: nat): (r: nat)
    ensures r < TWO_64 && (b <= a < TWO_64 ==> r == a - b) && (a < b < TWO_64 ==> r == a - b + TWO_64)
  {
    (a - b) % TWO_64
  }

  function Add64(a: nat, b: nat): (r: nat)
    ensures r < TWO_64 && (a + b < TWO_64 ==> r == a + b)
  {
    (a + b) % TWO_64
  }

  function At(acc: Accumulators, t: TokenId): int { if t in acc then acc[t] else 0 }

  function Fee(fees: map<TokenId, nat>, t: TokenId): nat { if t in fees then fees[t] else 0 }

  /** Floor of growth times amount over the base: the divisor is positive, so Euclidean division is the floor. */
  function Part(growth: int, amount: nat, base: nat): int
    requires base > 0
  {
    growth * amount / base
  }

  // ---------- one share ----------

  /** The fee after one reward is added: none when out of range; a total of 0 is not stored. */
  function Credited(fee: nat, growth: int, amount: nat, base: nat): Option<nat>
    requires base > 0
  {
    var reward := Part(growth, amount, base) + fee;
    if !(0 <= reward < TWO_64) then None else Some(if reward > 0 then reward else fee)
  }

  /** The fee after one kind of accumulator. */
  function KindCredit(fee: nat, acc: Accumulators, last: Accumulators, amount: nat, base: nat, t: TokenId): Option<nat>
    requires base > 0
  {
    if t in acc then Credited(fee, acc[t] - At(last, t), amount, base) else Some(fee)
  }

  /** The trading-fee accumulators come first; those of liquidity mining ignore locked shares. */
  function Credit(share: Share, lp: Accumulators, lm: Accumulators, base: nat, t: TokenId): Option<nat>
    requires base > 0
  {
    match KindCredit(Fee(share.tradingFees, t), lp, share.lastLp, share.amount, base, t)
    case None => None
    case Some(fee) => KindCredit(fee, lm, share.lastLm, Sub64(share.amount, share.lmLocked), base, t)
  }

  /** One of the two loops. */
  method AddRewards(fees: map<TokenId, nat>, acc: Accumulators, last: Accumulators, amount: nat, base: nat) returns (r: Option<map<TokenId, nat>>)
    requires base > 0
    ensures r.Some? <==> forall t :: KindCredit(Fee(fees, t), acc, last, amount, base, t).Some?
    ensures r.Some? ==> forall t :: Some(Fee(r.value, t)) == KindCredit(Fee(fees, t), acc, last, amount, base, t)
    ensures r.Some? ==> r.value.Keys <= fees.Keys + acc.Keys
  {
    hide Part;
    var result := fees;
    var todo := acc.Keys;
    while todo != {}
      invariant todo <= acc.Keys && result.Keys <= fees.Keys + acc.Keys
      invariant forall t :: t !in todo ==> Some(Fee(result, t)) == KindCredit(Fee(fees, t), acc, last, amount, base, t)
      invariant forall t :: t in todo ==> Fee(result, t) == Fee(fees, t)
    {
      var t :| t in todo;
      todo := todo - {t};
      var reward := Part(acc[t] - At(last, t), amount, base) + Fee(result, t);
      if !(0 <= reward < TWO_64) {
        assert KindCredit(Fee(fees, t), acc, last, amount, base, t).None?;
        return None;
      }
      if reward > 0 {
        result := result[t := reward];
      }
    }
    return Some(result);
  }

  method RecomputeLPFee(shares: map<string, Share>, lp: Accumulators, lm: Accumulators, nft: string, base: nat)
    returns (r: Option<map<TokenId, nat>>)
    requires base > 0
    ensures nft !in shares ==> r == None
    ensures nft in shares ==> (r.Some? <==> forall t :: Credit(shares[nft], lp, lm, base, t).Some?)
    ensures nft in shares && r.Some? ==> forall t :: Some(Fee(r.value, t)) == Credit(shares[nft], lp, lm, base, t)
    ensures nft in shares && r.Some? ==> r.value.Keys <= shares[nft].tradingFees.Keys + lp.Keys + lm.Keys
  {
    hide KindCredit, Fee;
    if nft !in shares {
      return None;
    }
    var share := shares[nft];
    r := AddRewards(share.tradingFees, lp, share.lastLp, share.amount, base);
    if r == None {
      assert !forall t :: Credit(share, lp, lm, base, t).Some? by {
        var t :| KindCredit(Fee(share.tradingFees, t), lp, share.lastLp, share.amount, base, t).None?;
        assert Credit(share, lp, lm, base, t).None?;
      }
      return None;
    }
    var fees := r.value;
    assert forall t :: Credit(share, lp, lm, base, t)
                       == KindCredit(Fee(fees, t), lm, share.lastLm, Sub64(share.amount, share.lmLocked), base, t);
    r := AddRewards(fees, lm, share.lastLm, Sub64(share.amount, share.lmLocked), base);
  }

  // ---------- the pool ----------

  function InRange(x: int): bool { 0 <= x < TWO_64 }

  /** The reward of one kind, for an amount of share. */
  function Reward(acc: Accumulators, prev: Accumulators, amount: nat, base: nat, t: TokenId): int
    requires base > 0
  {
    if t in acc then Part(acc[t] - At(prev, t), amount, base) else 0
  }

  function LpReward(pool: Pool, prev: Accumulators, base: nat, t: TokenId): int
    requires base > 0
  {
    Reward(pool.lp, prev, pool.shareAmount, base, t)
  }

  function LmReward(pool: Pool, prev: Accumulators, base: nat, t: TokenId): int
    requires base > 0
  {
    Reward(pool.lm, prev, Sub64(pool.shareAmount, pool.lmLocked), base, t)
  }

  /** What extracting a token's reward comes to: both floors, of the growth since the previous state's accumulators, or since 0 for what it does not have. */
  ghost predicate IsExtracted(id: string, cur: map<string, Pool>, prev: map<string, Pool>, base: nat, t: TokenId, lp: int, lm: int)
    requires base > 0 && id in cur
  {
    var pool := cur[id];
    var oldLp := if id in prev && t in prev[id].lp then prev[id].lp[t] else 0;
    var oldLm := if id in prev && t in prev[id].lm then prev[id].lm[t] else 0;
    && (if t in pool.lp then IsPart(lp, (pool.lp[t] - oldLp) * pool.shareAmount, base) else lp == 0)
    && (if t in pool.lm then IsPart(lm, (pool.lm[t] - oldLm) * ((pool.shareAmount - pool.lmLocked) % TWO_64), base) else lm == 0)
  }

  /** The greatest quotient that times the base is no more than x. */
  ghost predicate IsPart(q: int, x: int, base: nat) { q * base <= x < (q + 1) * base }

  lemma PartIsPart(growth: int, amount: nat, base: nat)
    requires base > 0
    ensures IsPart(Part(growth, amount, base), growth * amount, base)
  {
    var x := growth * amount;
    assert x == (x / base) * base + x % base;
    assert (x / base + 1) * base == (x / base) * base + base;
  }

  lemma ExtractedAre(id: string, cur: map<string, Pool>, prev: map<string, Pool>, base: nat, t: TokenId, recorded: nat)
    requires base > 0 && id in cur
    requires InRange(LpReward(cur[id], OldLp(prev, id), base, t)) && InRange(LmReward(cur[id], OldLm(prev, id), base, t))
    requires recorded == RecordedReward(cur[id], OldLp(prev, id), OldLm(prev, id), base, t)
    ensures Extracts(id, cur, prev, base, t, recorded)
  {
    hide IsPart, Part;
    var pool := cur[id];
    if t in pool.lp { PartIsPart(pool.lp[t] - At(OldLp(prev, id), t), pool.shareAmount, base); }
    if t in pool.lm { PartIsPart(pool.lm[t] - At(OldLm(prev, id), t), Sub64(pool.shareAmount, pool.lmLocked), base); }
    assert IsExtracted(id, cur, prev, base, t, LpReward(pool, OldLp(prev, id), base, t), LmReward(pool, OldLm(prev, id), base, t));
  }

  /** The accumulators of a pool in the previous state; a new pool starts at 0. */
  function OldLp(pools: map<string, Pool>, id: string): Accumulators {
    if id in pools then pools[id].lp else map[]
  }

  function OldLm(pools: map<string, Pool>, id: string): Accumulators {
    if id in pools then pools[id].lm else map[]
  }

  /** Both floors are in range, and their sum is what is recorded, as a machine word. */
  ghost predicate Extracts(id: string, cur: map<string, Pool>, prev: map<string, Pool>, base: nat, t: TokenId, recorded: nat)
    requires base > 0 && id in cur
  {
    exists lp, lm ::
      IsExtracted(id, cur, prev, base, t, lp, lm) && 0 <= lp < TWO_64 && 0 <= lm < TWO_64 && recorded == (lp + lm) % TWO_64
  }

  ghost predicate AllInRange(pool: Pool, oldLp: Accumulators, oldLm: Accumulators, base: nat)
    requires base > 0
  {
    forall t :: InRange(LpReward(pool, oldLp, base, t)) && InRange(LmReward(pool, oldLm, base, t))
  }

  method ExtractLqReward(id: string, cur: map<string, Pool>, prev: map<string, Pool>, base: nat) returns (r: Option<map<TokenId, nat>>)
    requires base > 0
    ensures id !in cur ==> r == None
    ensures id in cur ==> (r.Some? <==> AllInRange(cur[id], OldLp(prev, id), OldLm(prev, id), base))
    ensures id in cur && r.Some? ==> forall t :: Fee(r.value, t) == RecordedReward(cur[id], OldLp(prev, id), OldLm(prev, id), base, t)
    ensures id in cur && r.Some? ==> forall t :: Extracts(id, cur, prev, base, t, Fee(r.value, t))
  {
    hide LpReward, LmReward, InRange, Extracts, IsExtracted, Fee;
    if id !in cur {
      return None;
    }
    var oldLp: Accumulators, oldLm: Accumulators := map[], map[];
    if id in prev {
      oldLp, oldLm := prev[id].lp, prev[id].lm;
    }
    r := PoolRewards(cur[id], oldLp, oldLm, base);
    if r.Some? {
      forall t ensures Extracts(id, cur, prev, base, t, Fee(r.value, t)) {
        ExtractedAre(id, cur, prev, base, t, Fee(r.value, t));
      }
    }
  }

  /** The two loops. */
  method PoolRewards(pool: Pool, oldLp: Accumulators, oldLm: Accumulators, base: nat) returns (r: Option<map<TokenId, nat>>)
    requires base > 0
    ensures r.Some? <==> AllInRange(pool, oldLp, oldLm, base)
    ensures r.Some? ==> forall t :: Fee(r.value, t) == RecordedReward(pool, oldLp, oldLm, base, t)
  {
    hide Part;
    var result: map<TokenId, nat> := map[];
    var todo := pool.lp.Keys;
    while todo != {}
      invariant todo <= pool.lp.Keys && result.Keys <= pool.lp.Keys - todo
      invariant forall t :: t !in todo ==> Fee(result, t) == LpReward(pool, oldLp, base, t) && InRange(LpReward(pool, oldLp, base, t))
    {
      var t :| t in todo;
      todo := todo - {t};
      var reward := Part(pool.lp[t] - At(oldLp, t), pool.shareAmount, base);
      if !InRange(reward) {
        assert !InRange(LpReward(pool, oldLp, base, t));
        return None;
      }
      if reward > 0 {
        result := result[t := reward];
      }
    }
    todo := pool.lm.Keys;
    while todo != {}
      invariant todo <= pool.lm.Keys
      invariant forall t :: InRange(LpReward(pool, oldLp, base, t))
      invariant forall t :: t in todo ==> Fee(result, t) == LpReward(pool, oldLp, base, t)
      invariant forall t :: t !in todo ==> InRange(LmReward(pool, oldLm, base, t))
      invariant forall t :: t !in todo ==> Fee(result, t) == Add64(LpReward(pool, oldLp, base, t), LmReward(pool, oldLm, base, t))
    {
      var t :| t in todo;
      todo := todo - {t};
      var reward := Part(pool.lm[t] - At(oldLm, t), Sub64(pool.shareAmount, pool.lmLocked), base);
      if !InRange(reward) {
        assert !InRange(LmReward(pool, oldLm, base, t));
        return None;
      }
      if reward > 0 {
        result := result[t := if t in result then Add64(result[t], reward) else reward];
      }
    }
    return Some(result);
  }

  // ---------- floors of parts and of the whole ----------

  function Sum(xs: seq<int>): int {
    if xs == [] then 0 else Sum(xs[..|xs| - 1]) + xs[|xs| - 1]
  }

  function Floors(xs: seq<int>, base: nat): seq<int>
    requires base > 0
  {
    seq(|xs|, i requires 0 <= i < |xs| => xs[i] / base)
  }

  lemma FloorAdd(x: int, y: int, base: nat)
    requires base > 0
    ensures x / base + y / base <= (x + y) / base <= x / base + y / base + 1
  {
    var q, m := x / base + y / base, x % base + y % base;
    assert x + y == base * q + m;
    if m < base {
      DivIs(x + y, base, q, m);
    } else {
      DivIs(x + y, base, q + 1, m - base);
    }
  }

  lemma DivIs(x: int, base: nat, q: int, m: nat)
    requires base > 0 && m < base && x == base * q + m
    ensures x / base == q
  {
    var d := x / base - q;
    assert base * d == m - x % base;
    assert d >= 1 ==> base * d >= base;
    assert d <= -1 ==> base * d + base <= 0;
  }

  /** Taking floors of n parts instead of the whole loses less than n. */
  lemma {:induction false} FloorSum(xs: seq<int>, base: nat)
    requires base > 0 && |xs| > 0
    ensures Sum(Floors(xs, base)) <= Sum(xs) / base <= Sum(Floors(xs, base)) + |xs| - 1
  {
    var n := |xs| - 1;
    assert Floors(xs, base)[..n] == Floors(xs[..n], base);
    if n == 0 {
      assert Sum(xs[..0]) == 0 && Sum(Floors(xs[..0], base)) == 0;
    } else {
      FloorSum(xs[..n], base);
      FloorAdd(Sum(xs[..n]), xs[n], base);
    }
  }

  // ---------- conservation ----------

  /** What a pool's shares hold: all of its shares, with at most their amount locked, and none of the growth credited yet. */
  ghost predicate SharesOf(shares: seq<Share>, pool: Pool, prevLp: Accumulators, prevLm: Accumulators, t: TokenId) {
    && (forall i :: 0 <= i < |shares| ==> shares[i].lmLocked <= shares[i].amount < TWO_64)
    && (forall i :: 0 <= i < |shares| ==> At(shares[i].lastLp, t) == At(prevLp, t) && At(shares[i].lastLm, t) == At(prevLm, t))
    && pool.lmLocked <= pool.shareAmount < TWO_64
    && Sum(Amounts(shares)) == pool.shareAmount
    && Sum(Unlocked(shares)) == pool.shareAmount - pool.lmLocked
  }

  function Amounts(shares: seq<Share>): seq<int> {
    seq(|shares|, i requires 0 <= i < |shares| => shares[i].amount)
  }

  function Unlocked(shares: seq<Share>): seq<int> {
    seq(|shares|, i requires 0 <= i < |shares| => shares[i].amount - shares[i].lmLocked)
  }

  /** The growth of an accumulator that is in the current state. */
  function Growth(acc: Accumulators, prev: Accumulators, t: TokenId): int {
    if t in acc then acc[t] - At(prev, t) else 0
  }

  /** What recomputing adds to each share's fee. */
  function Gains(shares: seq<Share>, pool: Pool, base: nat, t: TokenId): seq<int>
    requires base > 0
    requires forall i :: 0 <= i < |shares| ==> Credit(shares[i], pool.lp, pool.lm, base, t).Some?
  {
    seq(|shares|, i requires 0 <= i < |shares| =>
      Credit(shares[i], pool.lp, pool.lm, base, t).value - Fee(shares[i].tradingFees, t))
  }

  function Times(g: int, xs: seq<int>): seq<int> { seq(|xs|, i requires 0 <= i < |xs| => g * xs[i]) }

  lemma {:induction false} SumTimes(g: int, xs: seq<int>)
    ensures Sum(Times(g, xs)) == g * Sum(xs)
  {
    if xs != [] {
      var n := |xs| - 1;
      SumTimes(g, xs[..n]);
      assert Times(g, xs)[..n] == Times(g, xs[..n]);
    }
  }

  lemma {:induction false} SumAdd(xs: seq<int>, ys: seq<int>, zs: seq<int>)
    requires |xs| == |ys| == |zs| && forall i :: 0 <= i < |xs| ==> zs[i] == xs[i] + ys[i]
    ensures Sum(zs) == Sum(xs) + Sum(ys)
  {
    if xs != [] {
      var n := |xs| - 1;
      SumAdd(xs[..n], ys[..n], zs[..n]);
    }
  }

  /** A share's gain is the floor of its part of both growths: storing no zero loses nothing. */
  lemma GainIsFloors(share: Share, pool: Pool, base: nat, t: TokenId)
    requires base > 0 && share.lmLocked <= share.amount < TWO_64
    requires Growth(pool.lp, share.lastLp, t) >= 0 && Growth(pool.lm, share.lastLm, t) >= 0
    requires Credit(share, pool.lp, pool.lm, base, t).Some?
    ensures Credit(share, pool.lp, pool.lm, base, t).value == Fee(share.tradingFees, t)
      + Part(Growth(pool.lp, share.lastLp, t), share.amount, base)
      + Part(Growth(pool.lm, share.lastLm, t), share.amount - share.lmLocked, base)
  {
    PartNonNegative(Growth(pool.lp, share.lastLp, t), share.amount, base);
    PartNonNegative(Growth(pool.lm, share.lastLm, t), share.amount - share.lmLocked, base);
  }

  lemma PartNonNegative(growth: int, amount: nat, base: nat)
    requires base > 0
    ensures growth >= 0 ==> Part(growth, amount, base) >= 0
    ensures growth == 0 ==> Part(growth, amount, base) == 0
  {
    if growth >= 0 {
      assert growth * amount >= 0;
    }
  }

  /** The parts of one growth over amounts xs. */
  function Parts(growth: int, xs: seq<int>, base: nat): seq<int>
    requires base > 0
  {
    Floors(Times(growth, xs), base)
  }

  lemma PartsBound(growth: int, xs: seq<int>, total: nat, base: nat)
    requires base > 0 && |xs| > 0 && Sum(xs) == total
    ensures Sum(Parts(growth, xs, base)) <= Part(growth, total, base)
    ensures Part(growth, total, base) <= Sum(Parts(growth, xs, base)) + if growth == 0 then 0 else |xs| - 1
  {
    SumTimes(growth, xs);
    FloorSum(Times(growth, xs), base);
    if growth == 0 {
      SumZero(Parts(growth, xs, base));
    }
  }

  lemma {:induction false} SumZero(xs: seq<int>)
    requires forall i :: 0 <= i < |xs| ==> xs[i] == 0
    ensures Sum(xs) == 0
  {
    if xs != [] {
      SumZero(xs[..|xs| - 1]);
    }
  }

  /** What is recorded for a pool (see `ExtractLqReward`). */
  function RecordedReward(pool: Pool, prevLp: Accumulators, prevLm: Accumulators, base: nat, t: TokenId): nat
    requires base > 0 && InRange(LpReward(pool, prevLp, base, t)) && InRange(LmReward(pool, prevLm, base, t))
  {
    Add64(LpReward(pool, prevLp, base, t), LmReward(pool, prevLm, base, t))
  }

  /**
   Over the same growth, the shares together are never credited more than the pool's
   reward, and for n shares at most n - 1 units less for each reward kind. The reward
   recorded is that one unless it exceeds a machine word, and then it is too small by 2^64.
   */
  lemma CreditsConserved(shares: seq<Share>, pool: Pool, prevLp: Accumulators, prevLm: Accumulators, base: nat, t: TokenId)
    requires base > 0 && |shares| > 0
    requires SharesOf(shares, pool, prevLp, prevLm, t)
    requires Growth(pool.lp, prevLp, t) >= 0 && Growth(pool.lm, prevLm, t) >= 0
    requires forall i :: 0 <= i < |shares| ==> Credit(shares[i], pool.lp, pool.lm, base, t).Some?
    ensures var credited, reward := Sum(Gains(shares, pool, base, t)), LpReward(pool, prevLp, base, t) + LmReward(pool, prevLm, base, t);
            && credited <= reward
            && reward <= credited + (if t in pool.lp then |shares| - 1 else 0) + (if t in pool.lm then |shares| - 1 else 0)
            && (InRange(LpReward(pool, prevLp, base, t)) && InRange(LmReward(pool, prevLm, base, t)) ==>
                  RecordedReward(pool, prevLp, prevLm, base, t) == if reward < TWO_64 then reward else reward - TWO_64)
  {
    hide Credit, Sum;
    var g, h := Growth(pool.lp, prevLp, t), Growth(pool.lm, prevLm, t);
    var xs, ys := Parts(g, Amounts(shares), base), Parts(h, Unlocked(shares), base);
    forall i | 0 <= i < |shares| ensures Gains(shares, pool, base, t)[i] == xs[i] + ys[i] {
      GainIsFloors(shares[i], pool, base, t);
    }
    SumAdd(xs, ys, Gains(shares, pool, base, t));
    PartsBound(g, Amounts(shares), pool.shareAmount, base);
    PartsBound(h, Unlocked(shares), pool.shareAmount - pool.lmLocked, base);
    PartNonNegative(0, pool.shareAmount, base);
    PartNonNegative(0, pool.shareAmount - pool.lmLocked, base);
  }

  // ---------- splitting the growth over blocks ----------

  /** States of one pool block by block, with the same shares and no token ever dropped. */
  ghost predicate SamePool(pools: seq<Pool>) {
    && (forall j :: 0 <= j < |pools| ==> pools[j].shareAmount == pools[0].shareAmount && pools[j].lmLocked == pools[0].lmLocked)
    && (forall i, j :: 0 <= i <= j < |pools| ==> pools[i].lp.Keys <= pools[j].lp.Keys && pools[i].lm.Keys <= pools[j].lm.Keys)
  }

  /** The trading-fee rewards recorded block by block. */
  function LpRewards(pools: seq<Pool>, base: nat, t: TokenId): seq<int>
    requires base > 0 && |pools| > 0
  {
    seq(|pools| - 1, j requires 0 <= j < |pools| - 1 => LpReward(pools[j + 1], pools[j].lp, base, t))
  }

  function LmRewards(pools: seq<Pool>, base: nat, t: TokenId): seq<int>
    requires base > 0 && |pools| > 0
  {
    seq(|pools| - 1, j requires 0 <= j < |pools| - 1 => LmReward(pools[j + 1], pools[j].lm, base, t))
  }

  /** The products whose floors are recorded, for accumulator values accs. */
  function Steps(accs: seq<int>, amount: nat): seq<int>
    requires |accs| > 0
  {
    seq(|accs| - 1, j requires 0 <= j < |accs| - 1 => (accs[j + 1] - accs[j]) * amount)
  }

  lemma {:induction false} StepsTelescope(accs: seq<int>, amount: nat)
    requires |accs| > 0
    ensures Sum(Steps(accs, amount)) == (accs[|accs| - 1] - accs[0]) * amount
  {
    var n := |accs| - 1;
    if n > 0 {
      StepsTelescope(accs[..n], amount);
      assert Steps(accs, amount)[..n - 1] == Steps(accs[..n], amount);
      assert (accs[n - 1] - accs[0]) * amount + (accs[n] - accs[n - 1]) * amount == (accs[n] - accs[0]) * amount;
    }
  }

  /** Recording over k blocks loses at most k - 1 units against recording once. */
  lemma SplittingLoses(accs: seq<int>, amount: nat, base: nat)
    requires base > 0 && |accs| > 1
    ensures var once, split := Part(accs[|accs| - 1] - accs[0], amount, base), Sum(Floors(Steps(accs, amount), base));
            split <= once <= split + |accs| - 2
  {
    StepsTelescope(accs, amount);
    FloorSum(Steps(accs, amount), base);
  }

  /** The rewards of one kind recorded block by block. */
  function Rewards(accs: seq<Accumulators>, amount: nat, base: nat, t: TokenId): seq<int>
    requires base > 0 && |accs| > 0
  {
    seq(|accs| - 1, j requires 0 <= j < |accs| - 1 => Reward(accs[j + 1], accs[j], amount, base, t))
  }

  lemma KindSplit(accs: seq<Accumulators>, amount: nat, base: nat, t: TokenId)
    requires base > 0 && |accs| > 1
    requires forall i, j :: 0 <= i <= j < |accs| ==> accs[i].Keys <= accs[j].Keys
    ensures var once, split := Reward(accs[|accs| - 1], accs[0], amount, base, t), Sum(Rewards(accs, amount, base, t));
            split <= once <= split + |accs| - 2
  {
    hide Sum, Part;
    var xs := seq(|accs|, j requires 0 <= j < |accs| => At(accs[j], t));
    SplittingLoses(xs, amount, base);
    forall i, j | 0 <= i < j < |accs| ensures Reward(accs[j], accs[i], amount, base, t) == Part(xs[j] - xs[i], amount, base) {
      PartNonNegative(0, amount, base);
    }
    forall j | 0 <= j < |accs| - 1 ensures Part(xs[j + 1] - xs[j], amount, base) == Steps(xs, amount)[j] / base {
      PartIs(xs[j + 1] - xs[j], amount, base);
    }
    assert Rewards(accs, amount, base, t) == Floors(Steps(xs, amount), base);
  }

  lemma PartIs(growth: int, amount: nat, base: nat)
    requires base > 0
    ensures Part(growth, amount, base) == growth * amount / base
  {
  }

  /** Extracting rewards at each of k blocks records, per kind, at most k - 1 units less than extracting once. */
  lemma RewardsSplit(pools: seq<Pool>, base: nat, t: TokenId)
    requires base > 0 && |pools| > 1 && SamePool(pools)
    ensures var k, last := |pools| - 1, pools[|pools| - 1];
            && Sum(LpRewards(pools, base, t)) <= LpReward(last, pools[0].lp, base, t) <= Sum(LpRewards(pools, base, t)) + k - 1
            && Sum(LmRewards(pools, base, t)) <= LmReward(last, pools[0].lm, base, t) <= Sum(LmRewards(pools, base, t)) + k - 1
  {
    hide Sum, Part, Reward;
    var lps := seq(|pools|, j requires 0 <= j < |pools| => pools[j].lp);
    var lms := seq(|pools|, j requires 0 <= j < |pools| => pools[j].lm);
    var unlocked := Sub64(pools[0].shareAmount, pools[0].lmLocked);
    KindSplit(lps, pools[0].shareAmount, base, t);
    KindSplit(lms, unlocked, base, t);
    assert LpRewards(pools, base, t) == Rewards(lps, pools[0].shareAmount, base, t);
    assert LmRewards(pools, base, t) == Rewards(lms, unlocked, base, t);
  }
}
