/**
 Rounded-up proportional fees, as computed in pdexv3/feeestimator/estimator.go
 and again for every hop in pdexv3/pathfinder/pdexv3estimatetrade.go.
 */
module FeeMath {
  import opened Types

  /** Fee rates are in basis points. */
  const BPS: nat := 10000

  /** `Div`, then one more when `Mod` is not zero. */
  function CeilDiv(n: nat, d: nat): nat
    requires d > 0
  {
    n / d + (if n % d != 0 then 1 else 0)
  }

  /** The fee as the `uint64` the code keeps of the big integer. */
  function Fee(amount: nat, rateBPS: nat): nat {
    CeilDiv(amount * rateBPS, BPS) % TWO_64
  }

  /** `amount - fee` in `uint64` arithmetic: the amount and what is left of it differ by the fee. */
  function Net(amount: nat, rateBPS: nat): (r: nat)
    ensures r < TWO_64 && exists turns: int :: amount - r == CeilDiv(amount * rateBPS, BPS) + turns * TWO_64
  {
    var fee := CeilDiv(amount * rateBPS, BPS);
    var r := (amount - Fee(amount, rateBPS)) % TWO_64;
    assert amount - r == fee + ((amount - fee % TWO_64) / TWO_64 - fee / TWO_64) * TWO_64;
    r
  }

  /** Trading x leaves enough of the amount to cover the fee, and nothing greater does. */
  ghost predicate IsNet(amount: nat, rateBPS: nat, x: nat) {
    x <= amount && LeavesFee(amount, rateBPS, x) && forall y: nat :: y <= amount && LeavesFee(amount, rateBPS, y) ==> y <= x
  }

  lemma NetIsNet(amount: nat, rateBPS: nat)
    requires amount < TWO_64 && rateBPS <= BPS
    ensures IsNet(amount, rateBPS, Net(amount, rateBPS))
  {
    NetExact(amount, rateBPS);
  }

  lemma MulMono(a: int, b: int, d: nat)
    requires a <= b
    ensures a * d <= b * d
  {
    assert (b - a) * d >= 0;
  }

  lemma MulCancel(a: int, b: int, d: nat)
    requires a * d < b * d
    ensures a < b
  {
    if b <= a { MulMono(b, a, d); }
  }

  lemma CeilDivBounds(n: nat, d: nat)
    requires d > 0
    ensures n <= CeilDiv(n, d) * d < n + d
  {
    assert n == (n / d) * d + n % d;
    assert (n / d + 1) * d == (n / d) * d + d;
  }

  /** `CeilDiv(n, d)` is the least `k` with `k * d >= n`. */
  lemma CeilDivLeast(n: nat, d: nat, k: nat)
    requires d > 0
    ensures k * d >= n <==> k >= CeilDiv(n, d)
  {
    var c := CeilDiv(n, d);
    CeilDivBounds(n, d);
    if k >= c {
      MulMono(c, k, d);
    } else {
      MulMono(k, c - 1, d);
      assert (c - 1) * d == c * d - d;
    }
  }

  lemma CeilDivMono(n: nat, m: nat, d: nat)
    requires d > 0 && n <= m
    ensures CeilDiv(n, d) <= CeilDiv(m, d)
  {
    CeilDivBounds(m, d);
    CeilDivLeast(n, d, CeilDiv(m, d));
  }

  lemma RoundedSum(n: nat, m: nat, d: nat, a: nat, b: nat, c: nat)
    requires n <= a * d < n + d && m <= b * d < m + d && n + m <= c * d < n + m + d
    ensures c <= a + b <= c + 1
  {
    assert (a + b) * d == a * d + b * d;
    assert (c - 1) * d == c * d - d;
    assert (c + 2) * d == c * d + 2 * d;
    MulCancel(c - 1, a + b, d);
    MulCancel(a + b, c + 2, d);
  }

  /** Rounding up two parts separately costs at most one unit. */
  lemma CeilDivAdd(n: nat, m: nat, d: nat)
    requires d > 0
    ensures CeilDiv(n + m, d) <= CeilDiv(n, d) + CeilDiv(m, d) <= CeilDiv(n + m, d) + 1
  {
    CeilDivBounds(n, d);
    CeilDivBounds(m, d);
    CeilDivBounds(n + m, d);
    RoundedSum(n, m, d, CeilDiv(n, d), CeilDiv(m, d), CeilDiv(n + m, d));
  }

  lemma MulRate(amount: nat, rateBPS: nat)
    requires rateBPS <= BPS
    ensures amount * rateBPS <= amount * BPS
  {
    MulMono(rateBPS, BPS, amount);
  }

  /** Trading x leaves enough of the amount to cover the fee. */
  predicate LeavesFee(amount: nat, rateBPS: nat, x: nat) {
    (amount - x) * BPS >= amount * rateBPS
  }

  /** Up to a rate of 10000 basis points the fee never exceeds the amount, so nothing wraps. */
  lemma NetExact(amount: nat, rateBPS: nat)
    requires amount < TWO_64 && rateBPS <= BPS
    ensures Fee(amount, rateBPS) == CeilDiv(amount * rateBPS, BPS) <= amount
    ensures Net(amount, rateBPS) == amount - CeilDiv(amount * rateBPS, BPS)
    ensures forall x: nat :: x <= amount ==> (x <= Net(amount, rateBPS) <==> LeavesFee(amount, rateBPS, x))
  {
    MulRate(amount, rateBPS);
    CeilDivLeast(amount * rateBPS, BPS, amount);
    var fee := CeilDiv(amount * rateBPS, BPS);
    assert 0 <= fee <= amount < TWO_64;
    forall x: nat | x <= amount ensures x <= amount - fee <==> LeavesFee(amount, rateBPS, x) {
      CeilDivLeast(amount * rateBPS, BPS, amount - x);
    }
  }

  /** A larger amount raises the fee by no more than it raises the amount. */
  lemma FeeGrowth(a: nat, b: nat, rateBPS: nat)
    requires a <= b && rateBPS <= BPS
    ensures CeilDiv(b * rateBPS, BPS) <= CeilDiv(a * rateBPS, BPS) + (b - a)
  {
    var c := CeilDiv(a * rateBPS, BPS);
    CeilDivBounds(a * rateBPS, BPS);
    MulRate(b - a, rateBPS);
    assert b * rateBPS == a * rateBPS + (b - a) * rateBPS;
    CeilDivLeast(b * rateBPS, BPS, c + (b - a));
  }

  /** What is left after the fee never shrinks when the amount grows. */
  lemma NetMono(a: nat, b: nat, rateBPS: nat)
    requires a <= b < TWO_64 && rateBPS <= BPS
    ensures Net(a, rateBPS) <= Net(b, rateBPS) <= b
  {
    NetExact(a, rateBPS);
    NetExact(b, rateBPS);
    FeeGrowth(a, b, rateBPS);
  }
}
