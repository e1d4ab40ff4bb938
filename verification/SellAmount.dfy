/**
 Inverting the receive curve by binary search over all of `uint64`
 (pdexv3/pathfinder/pdexv3estimatetrade.go, FindSellAmount).

 The curve is not monotone: amounts below a dust level and amounts above what the
 pools can take both pay 0. The search reads a 0 as "too large" until it has found
 some amount that pays enough, and as "too small" from then on.
 */
module SellAmount {
  import opened Types
  import TP = TradePath
  import opened FeeMath
  import SimplePaths
  import Pathfinder

  /** The amount tried next. */
  function Mid(left: nat, right: nat): (mid: nat)
    requires left <= right
    ensures left <= mid <= right
  {
    left + (right - left) / 2
  }

  /** The loop of the search, without wrap-around. */
  function Search(f: nat -> nat, target: nat, left: nat, right: nat, best: nat): nat
    requires 1 <= left
    decreases right + 1 - left
  {
    if left > right then best
    else
      var mid := Mid(left, right);
      if f(mid) == 0 then
        if best == 0 then Search(f, target, left, mid - 1, best) else Search(f, target, mid + 1, right, best)
      else if f(mid) >= target then Search(f, target, left, mid - 1, mid)
      else Search(f, target, mid + 1, right, best)
  }

  function Found(f: nat -> nat, target: nat): nat {
    Search(f, target, 1, MAX_UINT64, 0)
  }

  // ---------- what is searched for ----------

  /** Zero below the dust level `a` and above `b`, positive and non-decreasing in between. */
  ghost predicate Bump(f: nat -> nat, a: nat, b: nat) {
    && 1 <= a <= b <= MAX_UINT64
    && (forall x: nat :: x < a || b < x <= MAX_UINT64 ==> f(x) == 0)
    && (forall x: nat :: a <= x <= b ==> f(x) > 0)
    && (forall x: nat, y: nat :: a <= x <= y <= b ==> f(x) <= f(y))
  }

  /** `x` pays something, and at least the target. */
  ghost predicate Reaches(f: nat -> nat, target: nat, x: nat) {
    1 <= x <= MAX_UINT64 && f(x) > 0 && f(x) >= target
  }

  /** The least amount that reaches the target, or 0 if none does. */
  ghost predicate IsLeast(f: nat -> nat, target: nat, r: nat) {
    if r == 0 then forall x: nat :: !Reaches(f, target, x)
    else Reaches(f, target, r) && forall x: nat :: Reaches(f, target, x) ==> r <= x
  }

  function Pow2(k: nat): (p: nat)
    ensures p >= 1
  {
    if k == 0 then 1 else 2 * Pow2(k - 1)
  }

  /** The curve is positive at some power of two: only those are tried until one pays. */
  ghost predicate HasPowerOfTwo(a: nat, b: nat, k: nat) {
    exists j: nat :: j < k && a <= Pow2(j) <= b
  }

  // ---------- correctness ----------

  /** From the first paying probe on: every amount that reaches the target is between the bounds, or is `best`. */
  ghost predicate Bracketed(f: nat -> nat, target: nat, a: nat, left: nat, right: nat, best: nat) {
    && 1 <= left && right <= MAX_UINT64
    && (best == 0 ==> left > a)
    && (best != 0 ==> Reaches(f, target, best) && best == right + 1)
    && forall x: nat :: Reaches(f, target, x) ==> left <= x && (best == 0 ==> x <= right)
  }

  /** How the bounds move on a probe. */
  function Narrow(f: nat -> nat, target: nat, left: nat, right: nat, best: nat, mid: nat): (nat, nat, nat)
    requires mid >= 1
  {
    if f(mid) == 0 then if best == 0 then (left, mid - 1, best) else (mid + 1, right, best)
    else if f(mid) >= target then (left, mid - 1, mid)
    else (mid + 1, right, best)
  }

  lemma ZeroProbe(f: nat -> nat, target: nat, a: nat, b: nat, left: nat, right: nat, best: nat, mid: nat)
    requires Bump(f, a, b) && Bracketed(f, target, a, left, right, best) && left <= mid <= right && f(mid) == 0
    ensures best == 0 ==> Bracketed(f, target, a, left, mid - 1, best)
    ensures best != 0 ==> Bracketed(f, target, a, mid + 1, right, best)
  {
    if best == 0 {
      assert mid > b;
      forall x: nat | Reaches(f, target, x) ensures x <= mid - 1 {}
    } else {
      assert best <= b && mid < a;
      forall x: nat | Reaches(f, target, x) ensures mid + 1 <= x {}
    }
  }

  lemma ShortProbe(f: nat -> nat, target: nat, a: nat, b: nat, left: nat, right: nat, best: nat, mid: nat)
    requires Bump(f, a, b) && Bracketed(f, target, a, left, right, best) && left <= mid <= right && 0 < f(mid) < target
    ensures Bracketed(f, target, a, mid + 1, right, best)
  {
    assert a <= mid <= b;
    forall x: nat | Reaches(f, target, x) ensures mid + 1 <= x {
      assert a <= x <= b;
    }
  }

  lemma PayingProbe(f: nat -> nat, target: nat, a: nat, left: nat, right: nat, best: nat, mid: nat)
    requires Bracketed(f, target, a, left, right, best) && left <= mid <= right && f(mid) > 0 && f(mid) >= target
    ensures Bracketed(f, target, a, left, mid - 1, mid)
  {
  }

  lemma BracketEmpty(f: nat -> nat, target: nat, a: nat, left: nat, right: nat, best: nat)
    requires Bracketed(f, target, a, left, right, best) && left > right
    ensures Search(f, target, left, right, best) == best && IsLeast(f, target, best)
  {
  }

  lemma {:induction false} SearchFromHit(f: nat -> nat, target: nat, a: nat, b: nat, left: nat, right: nat, best: nat)
    requires Bump(f, a, b) && 1 <= left && Bracketed(f, target, a, left, right, best)
    ensures IsLeast(f, target, Search(f, target, left, right, best))
    decreases right + 1 - left
  {
    hide Search, IsLeast, Bump, Bracketed;
    if left > right {
      BracketEmpty(f, target, a, left, right, best);
    } else {
      var mid := Mid(left, right);
      var (l, r, n) := Narrow(f, target, left, right, best, mid);
      SearchNarrows(f, target, left, right, best);
      if f(mid) == 0 {
        ZeroProbe(f, target, a, b, left, right, best, mid);
      } else if f(mid) >= target {
        PayingProbe(f, target, a, left, right, best, mid);
      } else {
        ShortProbe(f, target, a, b, left, right, best, mid);
      }
      SearchFromHit(f, target, a, b, l, r, n);
    }
  }

  lemma {:induction false} Pow2Mono(j: nat, k: nat)
    requires j < k
    ensures 2 * Pow2(j) <= Pow2(k)
    decreases k
  {
    if j < k - 1 { Pow2Mono(j, k - 1); }
  }

  /** While nothing has paid, the probes are the descending powers of two. */
  lemma {:induction false} SearchPowers(f: nat -> nat, target: nat, a: nat, b: nat, k: nat)
    requires Bump(f, a, b) && Pow2(k) - 1 <= MAX_UINT64
    requires Pow2(k) > b || !HasPowerOfTwo(a, b, k)
    ensures HasPowerOfTwo(a, b, k) ==> IsLeast(f, target, Search(f, target, 1, Pow2(k) - 1, 0))
    ensures !HasPowerOfTwo(a, b, k) ==> Search(f, target, 1, Pow2(k) - 1, 0) == 0
  {
    if k > 0 {
      var p := Pow2(k - 1);
      var right := Pow2(k) - 1;
      assert Mid(1, right) == p;
      if a <= p <= b {
        assert HasPowerOfTwo(a, b, k);
        FirstHit(f, target, a, b, p, right);
      } else {
        assert f(p) == 0;
        PowerBelow(a, b, k);
        SearchPowers(f, target, a, b, k - 1);
      }
    }
  }

  lemma FirstHit(f: nat -> nat, target: nat, a: nat, b: nat, p: nat, right: nat)
    requires Bump(f, a, b) && a <= p <= b <= right <= MAX_UINT64 && p == Mid(1, right)
    ensures IsLeast(f, target, Search(f, target, 1, right, 0))
  {
    hide Search, IsLeast;
    SearchNarrows(f, target, 1, right, 0);
    if f(p) >= target {
      SearchFromHit(f, target, a, b, 1, p - 1, p);
    } else {
      forall x: nat | Reaches(f, target, x) ensures p + 1 <= x <= right {
        assert a <= x <= b;
      }
      SearchFromHit(f, target, a, b, p + 1, right, 0);
    }
  }

  lemma PowerBelow(a: nat, b: nat, k: nat)
    requires k > 0 && !(a <= Pow2(k - 1) <= b)
    ensures HasPowerOfTwo(a, b, k) <==> HasPowerOfTwo(a, b, k - 1)
    ensures HasPowerOfTwo(a, b, k) ==> Pow2(k - 1) > b
  {
    if HasPowerOfTwo(a, b, k) {
      var j: nat :| j < k && a <= Pow2(j) <= b;
      assert j < k - 1;
      Pow2Mono(j, k - 1);
    }
  }

  lemma {:induction false} Pow2Add(j: nat, k: nat)
    ensures Pow2(j + k) == Pow2(j) * Pow2(k)
  {
    if k > 0 { Pow2Add(j, k - 1); }
  }

  lemma Pow2Is64()
    ensures Pow2(64) == TWO_64
  {
    assert Pow2(4) == 16 by { Pow2Add(2, 2); }
    Pow2Add(4, 4);
    Pow2Add(8, 8);
    Pow2Add(16, 16);
    Pow2Add(32, 32);
  }

  /**
   On a curve that is positive exactly between `a` and `b`, and non-decreasing
   there, the search returns the least amount that reaches the target, or 0 if
   there is none, exactly when some power of two lies between `a` and `b` or there
   is nothing to find; otherwise it returns 0.
   */
  lemma FoundIsLeast(f: nat -> nat, target: nat, a: nat, b: nat)
    requires Bump(f, a, b)
    ensures IsLeast(f, target, Found(f, target)) <==>
              HasPowerOfTwo(a, b, 64) || forall x: nat :: !Reaches(f, target, x)
    ensures !HasPowerOfTwo(a, b, 64) ==> Found(f, target) == 0
  {
    Pow2Is64();
    SearchPowers(f, target, a, b, 64);
  }

  /** A curve that stays positive over a factor of two is always searched correctly. */
  lemma WideBumpHasPowerOfTwo(a: nat, b: nat)
    requires 1 <= a && 2 * a <= b <= MAX_UINT64
    ensures HasPowerOfTwo(a, b, 64)
  {
    Pow2Is64();
    var k := 64;
    while Pow2(k) > b
      invariant 0 <= k <= 64 && (k == 64 || Pow2(k + 1) > b)
    {
      k := k - 1;
    }
    assert Pow2(k + 1) == 2 * Pow2(k);
    assert a <= Pow2(k) <= b;
  }

  lemma SearchNarrows(f: nat -> nat, target: nat, left: nat, right: nat, best: nat)
    requires 1 <= left <= right
    ensures var (l, r, n) := Narrow(f, target, left, right, best, Mid(left, right));
      Search(f, target, left, right, best) == Search(f, target, l, r, n)
  {
    hide Mid;
  }

  // ---------- the loop on uint64 values ----------

  /** `uint64` increment and decrement. */
  function Inc(x: nat): (r: nat)
    ensures x < MAX_UINT64 ==> r == x + 1
    ensures x == MAX_UINT64 ==> r == 0
  {
    (x + 1) % TWO_64
  }

  function Dec(x: nat): (r: nat)
    ensures 1 <= x <= MAX_UINT64 ==> r == x - 1
    ensures x == 0 ==> r == MAX_UINT64
  {
    (x - 1) % TWO_64
  }

  datatype Loop = Loop(left: nat, right: nat, best: nat)

  /** One turn of the loop; a finished loop stays as it is. */
  function Turn(f: nat -> nat, target: nat, s: Loop): Loop {
    if s.left > s.right then s
    else
      var mid := Mid(s.left, s.right);
      if f(mid) == 0 then
        if s.best == 0 then s.(right := Dec(mid)) else s.(left := Inc(mid))
      else if f(mid) >= target then s.(right := Dec(mid), best := mid)
      else s.(left := Inc(mid))
  }

  function Turns(f: nat -> nat, target: nat, n: nat): Loop {
    if n == 0 then Loop(1, MAX_UINT64, 0) else Turn(f, target, Turns(f, target, n - 1))
  }

  /** The amounts tried, from j = 63 down, as long as every one of them pays something short of the target. */
  function UpperProbe(j: nat): nat {
    if Pow2(j) <= TWO_64 then TWO_64 - Pow2(j) else 0
  }

  predicate Short(f: nat -> nat, target: nat, j: nat) {
    0 < f(UpperProbe(j)) < target
  }

  ghost predicate AllShort(f: nat -> nat, target: nat) {
    forall j: nat :: j < 64 ==> Short(f, target, j)
  }

  /** All probes were short so far, but not all of those to come are. */
  ghost predicate Climbing(f: nat -> nat, target: nat, left: nat, n: nat) {
    1 <= n <= 64 && left == UpperProbe(n) + 1 && exists j: nat :: j < n && !Short(f, target, j)
  }

  ghost predicate Ascending(f: nat -> nat, target: nat, left: nat) {
    exists n: nat :: Climbing(f, target, left, n)
  }

  /** No bound has wrapped around, nor will. */
  ghost predicate Unwrapped(f: nat -> nat, target: nat, s: Loop) {
    && 1 <= s.left <= s.right + 1 <= TWO_64 && (s.best != 0 ==> s.right < s.best <= MAX_UINT64)
    && (s.right == MAX_UINT64 ==> Ascending(f, target, s.left))
  }

  lemma Climb(n: nat)
    requires 1 <= n <= 64
    ensures var left := UpperProbe(n) + 1; left <= MAX_UINT64 && Mid(left, MAX_UINT64) == UpperProbe(n - 1)
    ensures UpperProbe(0) == MAX_UINT64 && UpperProbe(64) == 0
  {
    Pow2Is64();
    if n < 64 { Pow2Mono(n, 64); }
    assert Pow2(n) == 2 * Pow2(n - 1);
  }

  /** A short probe below the top leads to the next one. */
  lemma ClimbsOn(f: nat -> nat, target: nat, left: nat)
    requires Ascending(f, target, left) && left <= MAX_UINT64 && 0 < f(Mid(left, MAX_UINT64)) < target
    ensures var mid := Mid(left, MAX_UINT64); mid < MAX_UINT64 && Ascending(f, target, mid + 1)
  {
    hide UpperProbe, Pow2, Mid;
    var n: nat :| Climbing(f, target, left, n);
    var mid := Mid(left, MAX_UINT64);
    Climb(n);
    var j: nat :| j < n && !Short(f, target, j);
    assert j < n - 1;
    Climb(n - 1);
    assert Climbing(f, target, mid + 1, n - 1);
  }

  lemma TurnKeeps(f: nat -> nat, target: nat, s: Loop)
    requires Unwrapped(f, target, s) && s.left <= s.right
    ensures var t := Turn(f, target, s);
      && Unwrapped(f, target, t) && t.right - t.left < s.right - s.left
      && Search(f, target, s.left, s.right, s.best) == Search(f, target, t.left, t.right, t.best)
  {
    hide Search, Ascending, Mid, Inc, Dec;
    var mid := Mid(s.left, s.right);
    assert s.left <= mid <= s.right;
    SearchNarrows(f, target, s.left, s.right, s.best);
    if s.right == MAX_UINT64 && 0 < f(mid) < target {
      ClimbsOn(f, target, s.left);
    }
  }

  lemma StartsUnwrapped(f: nat -> nat, target: nat)
    requires !AllShort(f, target)
    ensures Unwrapped(f, target, Loop(1, MAX_UINT64, 0))
  {
    Climb(64);
    assert Climbing(f, target, 1, 64);
  }

  lemma {:induction false} StaysUnwrapped(f: nat -> nat, target: nat, n: nat)
    requires !AllShort(f, target)
    ensures Unwrapped(f, target, Turns(f, target, n))
  {
    hide Unwrapped;
    if n == 0 {
      StartsUnwrapped(f, target);
    } else {
      StaysUnwrapped(f, target, n - 1);
      if Turns(f, target, n - 1).left <= Turns(f, target, n - 1).right {
        TurnKeeps(f, target, Turns(f, target, n - 1));
      }
    }
  }

  lemma ClimbStep(f: nat -> nat, target: nat, n: nat)
    requires AllShort(f, target) && 1 <= n <= 64
    ensures Turn(f, target, Loop(Inc(UpperProbe(n)), MAX_UINT64, 0)) == Loop(Inc(UpperProbe(n - 1)), MAX_UINT64, 0)
  {
    hide UpperProbe, Pow2, Inc, Dec, Mid;
    Climb(n);
    assert Short(f, target, n - 1);
  }

  lemma {:induction false} ClimbsToTheTop(f: nat -> nat, target: nat, n: nat)
    requires AllShort(f, target) && n <= 64
    ensures Turns(f, target, n) == Loop(Inc(UpperProbe(64 - n)), MAX_UINT64, 0)
  {
    hide Turn, UpperProbe, Inc, AllShort;
    Climb(64);
    if n > 0 {
      ClimbsToTheTop(f, target, n - 1);
      ClimbStep(f, target, 65 - n);
    }
  }

  /** The lower bound wraps around to 0 exactly when all upper probes pay something short of the target. */
  lemma WrapsExactly(f: nat -> nat, target: nat)
    ensures (exists n: nat :: Turns(f, target, n).left == 0) <==> AllShort(f, target)
  {
    hide Turns;
    if AllShort(f, target) {
      ClimbsToTheTop(f, target, 64);
      Climb(1);
      assert Turns(f, target, 64).left == 0;
    } else {
      forall n: nat ensures Turns(f, target, n).left >= 1 {
        StaysUnwrapped(f, target, n);
      }
    }
  }

  // ---------- when the loop ends ----------

  predicate Finished(s: Loop) { s.left > s.right }

  ghost predicate Returns(f: nat -> nat, target: nat) {
    exists n: nat :: Finished(Turns(f, target, n))
  }

  /** The amounts tried after the wrap, from k = 63 down, as long as none of them pays. */
  function LowProbe(k: nat): nat { Pow2(k) - 1 }

  /** The amounts tried after the wrap, from j = 63 down, as long as every one of them pays something short of the target. */
  function LateProbe(j: nat): nat {
    if UpperProbe(j) >= 1 then UpperProbe(j) - 1 else 0
  }

  predicate LateShort(f: nat -> nat, target: nat, j: nat) {
    0 < f(LateProbe(j)) < target
  }

  ghost predicate AllLowZero(f: nat -> nat) {
    forall k: nat :: k < 64 ==> f(LowProbe(k)) == 0
  }

  ghost predicate AllLateShort(f: nat -> nat, target: nat) {
    forall j: nat :: j < 64 ==> LateShort(f, target, j)
  }

  /** The states on the way up, and after the wrap on the way down and on the way up again. */
  function Up(m: nat): Loop { Loop(UpperProbe(m) + 1, MAX_UINT64, 0) }

  function Down(k: nat): Loop { Loop(0, if k < 64 && Pow2(k) >= 2 then Pow2(k) - 2 else MAX_UINT64, 0) }

  function Again(j: nat): Loop { Loop(UpperProbe(j), MAX_UINT64, 0) }

  lemma UpTurn(f: nat -> nat, target: nat, m: nat)
    requires 1 <= m <= 64 && Short(f, target, m - 1)
    ensures !Finished(Up(m)) && Turn(f, target, Up(m)) == if m == 1 then Down(64) else Up(m - 1)
  {
    hide UpperProbe, Pow2, Inc, Dec, Mid;
    Climb(m);
    if m > 1 { Climb(m - 1); }
  }

  lemma DownMid(k: nat)
    requires 1 <= k <= 64
    ensures Mid(0, Down(k).right) == LowProbe(k - 1) && (k < 64 ==> Down(k).right < MAX_UINT64)
    ensures LowProbe(k - 1) <= MAX_UINT64 && (LowProbe(k - 1) == 0 <==> k == 1)
    ensures k > 1 ==> Down(k - 1).right + 1 == LowProbe(k - 1)
  {
    Pow2Is64();
    assert Pow2(k) == 2 * Pow2(k - 1);
    if k < 64 { Pow2Mono(k, 64); }
    if k > 1 { assert Pow2(k - 1) == 2 * Pow2(k - 2); }
  }

  lemma DownTurn(f: nat -> nat, target: nat, k: nat)
    requires 1 <= k <= 64 && f(LowProbe(k - 1)) == 0
    ensures !Finished(Down(k)) && Turn(f, target, Down(k)) == if k == 1 then Down(64) else Down(k - 1)
  {
    hide UpperProbe, LowProbe, Pow2, Inc, Dec, Mid;
    DownMid(k);
  }

  lemma AgainMid(j: nat)
    requires 1 <= j <= 64
    ensures UpperProbe(j) <= MAX_UINT64 && Mid(UpperProbe(j), MAX_UINT64) == LateProbe(j - 1)
    ensures LateProbe(j - 1) + 1 == UpperProbe(j - 1) <= MAX_UINT64
    ensures j < 64 ==> UpperProbe(j) >= 1
    ensures Again(64) == Down(64) && Again(0) == Up(1)
  {
    Pow2Is64();
    assert Pow2(j) == 2 * Pow2(j - 1);
    Pow2Mono(j - 1, 64);
    if j < 64 { Pow2Mono(j, 64); }
    assert Pow2(1) == 2;
  }

  lemma AgainTurn(f: nat -> nat, target: nat, j: nat)
    requires 1 <= j <= 64 && LateShort(f, target, j - 1)
    ensures !Finished(Again(j)) && Turn(f, target, Again(j)) == Again(j - 1)
  {
    hide UpperProbe, LateProbe, Pow2, Inc, Dec, Mid;
    AgainMid(j);
  }

  /** The states the loop goes round in; `low` tells which way it goes after the wrap. */
  ghost predicate Circling(s: Loop, low: bool) {
    || (exists m: nat :: 1 <= m <= 64 && s == Up(m))
    || (if low then exists k: nat :: 1 <= k <= 64 && s == Down(k) else exists j: nat :: 1 <= j <= 64 && s == Again(j))
  }

  lemma CirclesOn(f: nat -> nat, target: nat, s: Loop, low: bool)
    requires AllShort(f, target) && (if low then AllLowZero(f) else AllLateShort(f, target)) && Circling(s, low)
    ensures !Finished(s) && Circling(Turn(f, target, s), low)
  {
    hide Up, Down, Again, Turn, Short, LateShort, LowProbe;
    AgainMid(1);
    if m: nat :| 1 <= m <= 64 && s == Up(m) {
      UpTurn(f, target, m);
      assert m > 1 ==> 1 <= m - 1 <= 64;
    } else if low {
      var k: nat :| 1 <= k <= 64 && s == Down(k);
      DownTurn(f, target, k);
      assert k > 1 ==> 1 <= k - 1 <= 64;
    } else {
      var j: nat :| 1 <= j <= 64 && s == Again(j);
      AgainTurn(f, target, j);
      assert j > 1 ==> 1 <= j - 1 <= 64;
    }
  }

  lemma {:induction false} CirclesForever(f: nat -> nat, target: nat, low: bool, n: nat)
    requires AllShort(f, target) && if low then AllLowZero(f) else AllLateShort(f, target)
    ensures Circling(Turns(f, target, n), low)
  {
    hide Circling, Turn, AllShort, AllLowZero, AllLateShort;
    if n == 0 {
      StartsUp(low);
    } else {
      CirclesForever(f, target, low, n - 1);
      CirclesOn(f, target, Turns(f, target, n - 1), low);
    }
  }

  lemma StartsUp(low: bool)
    ensures Circling(Loop(1, MAX_UINT64, 0), low)
  {
    Climb(64);
    assert Loop(1, MAX_UINT64, 0) == Up(64);
  }

  /** Below the top, and above 0 or with an amount found: no bound wraps any more. */
  predicate Settled(s: Loop) {
    s.right < MAX_UINT64 && s.left <= s.right + 1 && (s.left >= 1 || s.best != 0)
  }

  lemma TurnSettled(f: nat -> nat, target: nat, s: Loop)
    requires f(0) == 0 && Settled(s) && !Finished(s)
    ensures var t := Turn(f, target, s); Settled(t) && t.right - t.left < s.right - s.left
  {
    hide Mid, Inc, Dec;
    var mid := Mid(s.left, s.right);
    assert s.left <= mid <= s.right;
  }

  lemma {:induction false} SettledEnds(f: nat -> nat, target: nat, n: nat)
    requires f(0) == 0 && Settled(Turns(f, target, n))
    ensures Returns(f, target)
    decreases Turns(f, target, n).right + 1 - Turns(f, target, n).left
  {
    hide Turn, Settled;
    var s := Turns(f, target, n);
    if !Finished(s) {
      TurnSettled(f, target, s);
      assert Turns(f, target, n + 1) == Turn(f, target, s);
      SettledBounds(Turns(f, target, n + 1));
      SettledEnds(f, target, n + 1);
    }
  }

  lemma SettledBounds(s: Loop)
    requires Settled(s)
    ensures s.left <= s.right + 1
  {
  }

  lemma {:induction false} UnwrappedEnds(f: nat -> nat, target: nat, n: nat)
    requires Unwrapped(f, target, Turns(f, target, n))
    ensures Returns(f, target)
    decreases Turns(f, target, n).right + 1 - Turns(f, target, n).left
  {
    hide Turn, Unwrapped, Search;
    var s := Turns(f, target, n);
    if !Finished(s) {
      TurnKeeps(f, target, s);
      assert Turns(f, target, n + 1) == Turn(f, target, s);
      UnwrappedBounds(f, target, Turns(f, target, n + 1));
      UnwrappedEnds(f, target, n + 1);
    }
  }

  lemma UnwrappedBounds(f: nat -> nat, target: nat, s: Loop)
    requires Unwrapped(f, target, s)
    ensures 1 <= s.left <= s.right + 1 && s.right <= MAX_UINT64
  {
  }

  /** A low probe that pays takes the loop off its way down. */
  lemma LeavesDown(f: nat -> nat, target: nat, k: nat)
    requires f(0) == 0 && 1 <= k < 64 && f(LowProbe(k - 1)) > 0
    ensures !Finished(Down(k)) && Settled(Turn(f, target, Down(k)))
  {
    hide LowProbe, Pow2, Inc, Dec, Mid;
    DownMid(k);
  }

  /** A late probe that is not short takes the loop off its way up. */
  lemma LeavesAgain(f: nat -> nat, target: nat, j: nat)
    requires f(0) == 0 && 1 <= j <= 64 && !LateShort(f, target, j - 1) && (j == 64 ==> f(LateProbe(63)) > 0)
    ensures !Finished(Again(j)) && Settled(Turn(f, target, Again(j)))
  {
    hide UpperProbe, LateProbe, Pow2, Inc, Dec, Mid;
    AgainMid(j);
  }

  lemma {:induction false} DownEnds(f: nat -> nat, target: nat, n: nat, k: nat)
    requires f(0) == 0 && 1 <= k <= 64 && (k == 64 ==> f(LowProbe(63)) == 0)
    requires Turns(f, target, n) == Down(k) && exists i: nat :: i < k && f(LowProbe(i)) > 0
    ensures Returns(f, target)
    decreases k
  {
    hide Turn, Down, LowProbe, Settled, Finished, Returns;
    assert Turns(f, target, n + 1) == Turn(f, target, Turns(f, target, n));
    if f(LowProbe(k - 1)) == 0 {
      var i: nat :| i < k && f(LowProbe(i)) > 0;
      assert i < k - 1;
      DownTurn(f, target, k);
      DownEnds(f, target, n + 1, k - 1);
    } else {
      LeavesDown(f, target, k);
      SettledEnds(f, target, n + 1);
    }
  }

  lemma {:induction false} AgainEnds(f: nat -> nat, target: nat, n: nat, j: nat)
    requires f(0) == 0 && 1 <= j <= 64 && (j == 64 ==> f(LateProbe(63)) > 0)
    requires Turns(f, target, n) == Again(j) && exists i: nat :: i < j && !LateShort(f, target, i)
    ensures Returns(f, target)
    decreases j
  {
    hide Turn, Again, LateShort, Settled, Finished, Returns;
    assert Turns(f, target, n + 1) == Turn(f, target, Turns(f, target, n));
    if LateShort(f, target, j - 1) {
      var i: nat :| i < j && !LateShort(f, target, i);
      assert i < j - 1;
      AgainTurn(f, target, j);
      AgainEnds(f, target, n + 1, j - 1);
    } else {
      LeavesAgain(f, target, j);
      SettledEnds(f, target, n + 1);
    }
  }

  /** Otherwise the loop goes round forever, whatever the rest of the curve. */
  lemma NeverReturns(f: nat -> nat, target: nat)
    requires AllShort(f, target) && (AllLowZero(f) || AllLateShort(f, target))
    ensures !Returns(f, target)
  {
    hide Turns, Finished;
    var low := AllLowZero(f);
    forall n: nat ensures !Finished(Turns(f, target, n)) {
      CirclesForever(f, target, low, n);
      CirclesOn(f, target, Turns(f, target, n), low);
    }
  }

  /**
   The loop ends unless all upper probes pay something short of the target and,
   after the wrap, either no low probe pays or all late probes are short, too.
   */
  lemma ReturnsExactly(f: nat -> nat, target: nat)
    requires f(0) == 0
    ensures Returns(f, target) <==> !(AllShort(f, target) && (AllLowZero(f) || AllLateShort(f, target)))
  {
    hide Turns, Finished;
    if !AllShort(f, target) {
      StaysUnwrapped(f, target, 0);
      UnwrappedEnds(f, target, 0);
    } else if AllLowZero(f) || AllLateShort(f, target) {
      NeverReturns(f, target);
    } else {
      WrapEnds(f, target);
    }
  }

  lemma WrapEnds(f: nat -> nat, target: nat)
    requires f(0) == 0 && AllShort(f, target) && !AllLowZero(f) && !AllLateShort(f, target)
    ensures Returns(f, target)
  {
    hide Turns, Returns, LateShort, AllShort, Turn;
    ClimbsToTheTop(f, target, 64);
    AgainMid(64);
    AgainMid(1);
    assert Turns(f, target, 64) == Down(64);
    TopProbes();
    if f(LowProbe(63)) == 0 {
      DownEnds(f, target, 64, 64);
    } else {
      AgainEnds(f, target, 64, 64);
    }
  }

  /** Both ways start with the same probe. */
  lemma TopProbes()
    ensures LowProbe(63) == LateProbe(63)
  {
    Pow2Is64();
    assert Pow2(64) == 2 * Pow2(63);
  }

  // ---------- what is found after a wrap ----------

  lemma {:induction false} FinishedStays(f: nat -> nat, target: nat, m: nat, n: nat)
    requires m <= n && Finished(Turns(f, target, m))
    ensures Turns(f, target, n) == Turns(f, target, m)
  {
    hide Turn;
    if m < n {
      FinishedStays(f, target, m, n - 1);
      FinishedTurn(f, target, Turns(f, target, n - 1));
    }
  }

  /** Whatever the curve, what is found pays something and reaches the target. */
  lemma {:induction false} FoundReaches(f: nat -> nat, target: nat, n: nat)
    ensures var s := Turns(f, target, n); s.right <= MAX_UINT64 && (s.best != 0 ==> Reaches(f, target, s.best))
  {
    hide Mid, Inc, Dec;
    if n > 0 { FoundReaches(f, target, n - 1); }
  }

  /** From a settled state on, what is found is what was found before or lies between the bounds. */
  ghost predicate Between(f: nat -> nat, target: nat, s: Loop, r: nat) {
    r == s.best || (Reaches(f, target, r) && s.left <= r <= s.right)
  }

  lemma {:induction false} SettledFinds(f: nat -> nat, target: nat, n: nat, m: nat)
    requires f(0) == 0 && Settled(Turns(f, target, n)) && n <= m
    ensures var s, t := Turns(f, target, n), Turns(f, target, m);
            Settled(t) && s.left <= t.left && t.right <= s.right && Between(f, target, s, t.best)
    decreases m - n
  {
    hide Turn, Settled, Reaches;
    if n < m {
      var u := Turns(f, target, m - 1);
      SettledFinds(f, target, n, m - 1);
      if Finished(u) {
        FinishedTurn(f, target, u);
      } else {
        TurnSettled(f, target, u);
        TurnMoves(f, target, u);
      }
    }
  }

  lemma TurnMoves(f: nat -> nat, target: nat, s: Loop)
    requires f(0) == 0 && Settled(s) && !Finished(s)
    ensures var t := Turn(f, target, s); s.left <= t.left && t.right <= s.right && Between(f, target, s, t.best)
  {
    hide Mid, Inc, Dec;
    var mid := Mid(s.left, s.right);
    assert s.left <= mid <= s.right;
  }

  /** LowProbe(i) is the first of the low probes that pays. */
  ghost predicate FoundLow(f: nat -> nat, target: nat, i: nat, r: nat) {
    && i < 63 && f(LowProbe(i)) > 0 && (forall j: nat :: i < j < 64 ==> f(LowProbe(j)) == 0)
    && if f(LowProbe(i)) >= target then Reaches(f, target, r) && r <= LowProbe(i)
       else r == 0 || (Reaches(f, target, r) && LowProbe(i) < r < LowProbe(i + 1))
  }

  /** LateProbe(i) is the first of the late probes that is not short. */
  ghost predicate FoundLate(f: nat -> nat, target: nat, i: nat, r: nat) {
    && i < 64 && !LateShort(f, target, i) && (forall j: nat :: i < j < 64 ==> LateShort(f, target, j))
    && if f(LateProbe(i)) > 0 then Reaches(f, target, r) && LateProbe(i + 1) < r <= LateProbe(i)
       else r == 0 || (Reaches(f, target, r) && LateProbe(i + 1) < r < LateProbe(i))
  }

  lemma DownFound(f: nat -> nat, target: nat, n: nat, k: nat, m: nat)
    requires f(0) == 0 && 1 <= k < 64 && f(LowProbe(k - 1)) > 0 && n < m
    requires Turns(f, target, n) == Down(k)
    ensures var r, p := Turns(f, target, m).best, LowProbe(k - 1);
      if f(p) >= target then Reaches(f, target, r) && r <= p
      else r == 0 || (Reaches(f, target, r) && p < r < LowProbe(k))
  {
    hide LowProbe, Pow2, Inc, Dec, Mid, Turns, Settled;
    assert Turns(f, target, n + 1) == Turn(f, target, Down(k)) by { NextTurn(f, target, n); }
    LeavesDown(f, target, k);
    SettledFinds(f, target, n + 1, m);
    DownMid(k);
    if k < 63 { DownMid(k + 1); } else { DownMid(64); }
    DownRight(k);
    FoundReaches(f, target, m);
  }

  lemma NextTurn(f: nat -> nat, target: nat, n: nat)
    ensures Turns(f, target, n + 1) == Turn(f, target, Turns(f, target, n))
  {
  }

  lemma DownRight(k: nat)
    requires 1 <= k < 64
    ensures Down(k).right + 1 == LowProbe(k)
  {
    assert Pow2(k) == 2 * Pow2(k - 1);
  }

  lemma {:induction false} DownFinds(f: nat -> nat, target: nat, n: nat, k: nat, m: nat)
    requires f(0) == 0 && 1 <= k <= 64 && (k == 64 ==> f(LowProbe(63)) == 0) && n <= m
    requires Turns(f, target, n) == Down(k) && Finished(Turns(f, target, m))
    requires (exists i: nat :: i < k && f(LowProbe(i)) > 0) && forall j: nat :: k <= j < 64 ==> f(LowProbe(j)) == 0
    ensures exists i: nat :: FoundLow(f, target, i, Turns(f, target, m).best)
    decreases k
  {
    hide Turn, Turns, Down, LowProbe, Finished, Reaches;
    NextTurn(f, target, n);
    if f(LowProbe(k - 1)) == 0 {
      var i: nat :| i < k && f(LowProbe(i)) > 0;
      assert i < k - 1;
      DownTurn(f, target, k);
      if m == n { assert false; }
      DownFinds(f, target, n + 1, k - 1, m);
    } else {
      LeavesDown(f, target, k);
      if m == n { assert false; }
      DownFound(f, target, n, k, m);
      assert FoundLow(f, target, k - 1, Turns(f, target, m).best);
    }
  }

  lemma AgainFound(f: nat -> nat, target: nat, n: nat, j: nat, m: nat)
    requires f(0) == 0 && 1 <= j <= 64 && !LateShort(f, target, j - 1) && (j == 64 ==> f(LateProbe(63)) > 0) && n < m
    requires Turns(f, target, n) == Again(j)
    ensures var r, p := Turns(f, target, m).best, LateProbe(j - 1);
      if f(p) > 0 then Reaches(f, target, r) && LateProbe(j) < r <= p
      else r == 0 || (Reaches(f, target, r) && LateProbe(j) < r < p)
  {
    hide UpperProbe, LateProbe, Pow2, Inc, Dec, Mid, Turns, Settled;
    assert Turns(f, target, n + 1) == Turn(f, target, Again(j)) by { NextTurn(f, target, n); }
    LeavesAgain(f, target, j);
    SettledFinds(f, target, n + 1, m);
    AgainMid(j);
    LateIs(j);
    FoundReaches(f, target, m);
  }

  lemma LateIs(j: nat)
    requires 1 <= j <= 64
    ensures if j < 64 then LateProbe(j) + 1 == UpperProbe(j) else LateProbe(j) == 0 == UpperProbe(j)
  {
    AgainMid(j);
    Climb(64);
  }

  lemma {:induction false} AgainFinds(f: nat -> nat, target: nat, n: nat, j: nat, m: nat)
    requires f(0) == 0 && 1 <= j <= 64 && (j == 64 ==> f(LateProbe(63)) > 0) && n <= m
    requires Turns(f, target, n) == Again(j) && Finished(Turns(f, target, m))
    requires (exists i: nat :: i < j && !LateShort(f, target, i)) && forall i: nat :: j <= i < 64 ==> LateShort(f, target, i)
    ensures exists i: nat :: FoundLate(f, target, i, Turns(f, target, m).best)
    decreases j
  {
    hide Turn, Turns, Again, LateShort, Finished, LateProbe, Reaches;
    NextTurn(f, target, n);
    if LateShort(f, target, j - 1) {
      var i: nat :| i < j && !LateShort(f, target, i);
      assert i < j - 1;
      AgainTurn(f, target, j);
      if m == n { assert false; }
      AgainFinds(f, target, n + 1, j - 1, m);
    } else {
      LeavesAgain(f, target, j);
      if m == n { assert false; }
      AgainFound(f, target, n, j, m);
      assert FoundLate(f, target, j - 1, Turns(f, target, m).best);
    }
  }

  /**
   A run that ends after a wrap ends with an amount on the near side of the first low
   probe that pays, or of the first late probe that is not short, or with none.
   */
  lemma FoundAfterWrap(f: nat -> nat, target: nat, m: nat)
    requires f(0) == 0 && AllShort(f, target) && Finished(Turns(f, target, m))
    ensures if f(LowProbe(63)) == 0 then exists i: nat :: FoundLow(f, target, i, Turns(f, target, m).best)
            else exists i: nat :: FoundLate(f, target, i, Turns(f, target, m).best)
  {
    hide Turns, LateShort, AllShort, Turn, FoundLow, FoundLate, UpperProbe, LowProbe, LateProbe;
    ClimbsToTheTop(f, target, 64);
    AgainMid(64);
    AgainMid(1);
    assert Turns(f, target, 64) == Down(64);
    TopProbes();
    assert Returns(f, target);
    ReturnsExactly(f, target);
    if m < 64 {
      FinishedStays(f, target, m, 64);
    }
    if f(LowProbe(63)) == 0 {
      DownFinds(f, target, 64, 64, m);
    } else {
      AgainFinds(f, target, 64, 64, m);
    }
  }

  // ---------- the search on the market's curve ----------

  function Curve(m: TP.Market, maxHops: nat, src: Token, dst: Token): nat -> nat
    requires forall p :: p in m.pools ==> p.amplifier > 0
  {
    (amount: nat) => TP.GoodTradePath(m, maxHops, src, dst, amount).receive
  }

  const HALF: nat := 0x8000_0000_0000_0000

  ghost predicate NonDecreasing(f: nat -> nat) {
    f(0) == 0 && forall x: nat, y: nat :: x <= y <= MAX_UINT64 ==> f(x) <= f(y)
  }

  lemma ProbeBounds(j: nat)
    requires j < 64
    ensures HALF <= UpperProbe(j) <= MAX_UINT64 && UpperProbe(63) == HALF && UpperProbe(0) == MAX_UINT64
    ensures LowProbe(j) <= LowProbe(63) == HALF - 1 <= LateProbe(j) <= MAX_UINT64
  {
    Pow2Is64();
    assert Pow2(64) == 2 * Pow2(63);
    if j < 63 { Pow2Mono(j, 63); }
  }

  /**
   On a non-decreasing curve the loop ends exactly when half of all amounts pays
   nothing or the largest amount reaches the target.
   */
  lemma ReturnsOnNonDecreasing(f: nat -> nat, target: nat)
    requires NonDecreasing(f)
    ensures Returns(f, target) <==> f(HALF) == 0 || f(MAX_UINT64) >= target
  {
    hide Returns, UpperProbe, LowProbe, LateProbe, Pow2;
    ReturnsExactly(f, target);
    forall j: nat | j < 64 ensures f(HALF) <= f(UpperProbe(j)) <= f(MAX_UINT64) && f(LowProbe(j)) <= f(HALF - 1) <= f(LateProbe(j)) <= f(MAX_UINT64) {
      ProbeBounds(j);
    }
    ProbeBounds(63);
    if 0 < f(HALF) && f(MAX_UINT64) < target {
      assert AllShort(f, target);
      if f(HALF - 1) == 0 { assert AllLowZero(f); } else { assert AllLateShort(f, target); }
    } else {
      assert !Short(f, target, 63) || !Short(f, target, 0) by { ProbeBounds(0); }
    }
  }

  /**
   And if it ends, it ends with the least amount that reaches the target, unless
   only amounts above one half pay anything.
   */
  lemma FoundOnNonDecreasing(f: nat -> nat, target: nat)
    requires NonDecreasing(f)
    ensures IsLeast(f, target, Found(f, target)) <==> f(HALF) > 0 || !Reaches(f, target, MAX_UINT64)
  {
    hide Search, Pow2;
    if f(MAX_UINT64) == 0 {
      ZeroCurve(f, target);
    } else {
      var a := LeastPaying(f, MAX_UINT64);
      FoundIsLeast(f, target, a, MAX_UINT64);
      HalfIsPower();
      assert HasPowerOfTwo(a, MAX_UINT64, 64) <==> a <= HALF by {
        if a <= HALF {
          assert a <= Pow2(63) <= MAX_UINT64;
        }
        forall j: nat | j < 64 ensures Pow2(j) <= HALF {
          if j < 63 { Pow2Mono(j, 63); }
        }
      }
      assert (forall x: nat :: !Reaches(f, target, x)) <==> !Reaches(f, target, MAX_UINT64);
    }
  }

  lemma HalfIsPower()
    ensures Pow2(63) == HALF
  {
    Pow2Is64();
    assert Pow2(64) == 2 * Pow2(63);
  }

  lemma {:induction false} LeastPaying(f: nat -> nat, top: nat) returns (a: nat)
    requires f(top) > 0
    ensures a <= top && f(a) > 0 && forall x: nat :: x < a ==> f(x) == 0
    decreases top
  {
    if x: nat :| x < top && f(x) > 0 {
      a := LeastPaying(f, x);
    } else {
      a := top;
    }
  }

  lemma ZeroCurve(f: nat -> nat, target: nat)
    requires forall x: nat :: x <= MAX_UINT64 ==> f(x) == 0
    ensures Found(f, target) == 0 && forall x: nat :: !Reaches(f, target, x)
  {
    ZeroSearch(f, target, MAX_UINT64);
  }

  lemma {:induction false} ZeroSearch(f: nat -> nat, target: nat, right: nat)
    requires right <= MAX_UINT64 && forall x: nat :: x <= MAX_UINT64 ==> f(x) == 0
    ensures Search(f, target, 1, right, 0) == 0
    decreases right
  {
    hide Mid;
    if right >= 1 {
      ZeroSearch(f, target, Mid(1, right) - 1);
    }
  }

  lemma {:induction false} FoundByTurns(f: nat -> nat, target: nat, n: nat)
    requires !AllShort(f, target)
    ensures var s := Turns(f, target, n); 1 <= s.left && Search(f, target, s.left, s.right, s.best) == Found(f, target)
  {
    hide Unwrapped, Turn, Search;
    if n > 0 {
      FoundByTurns(f, target, n - 1);
      var s := Turns(f, target, n - 1);
      StaysUnwrapped(f, target, n - 1);
      StaysUnwrapped(f, target, n);
      UnwrappedBounds(f, target, Turns(f, target, n));
      if Finished(s) {
        FinishedTurn(f, target, s);
      } else {
        TurnKeeps(f, target, s);
      }
    }
  }

  lemma FinishedTurn(f: nat -> nat, target: nat, s: Loop)
    requires Finished(s)
    ensures Turn(f, target, s) == s
  {
  }

  /** Where no bound wraps the loop ends with what the search finds. */
  lemma EndsWithFound(f: nat -> nat, target: nat, n: nat)
    requires !AllShort(f, target) && Finished(Turns(f, target, n))
    ensures Turns(f, target, n).best == Found(f, target)
  {
    hide Turns, Found;
    FoundByTurns(f, target, n);
  }

  /**
   On a curve positive just between two amounts the loop ends exactly when no bound wraps,
   and always when the largest amount pays nothing.
   */
  lemma BumpReturns(f: nat -> nat, target: nat, a: nat, b: nat)
    requires Bump(f, a, b)
    ensures Returns(f, target) <==> !AllShort(f, target)
    ensures b < MAX_UINT64 ==> Returns(f, target)
  {
    hide Returns;
    ProbeBounds(0);
    ProbeBounds(63);
    ReturnsExactly(f, target);
    if b < MAX_UINT64 {
      assert !Short(f, target, 0);
    } else {
      assert NonDecreasing(f);
      ReturnsOnNonDecreasing(f, target);
      assert !Short(f, target, 0) || !Short(f, target, 63) || (0 < f(HALF) && f(MAX_UINT64) < target);
    }
  }

  /** Whether the amount found is the one looked for on every curve positive just between two amounts. */
  ghost predicate LeastOnBumps(f: nat -> nat, target: nat, r: nat) {
    forall a, b :: Bump(f, a, b) ==>
      && (IsLeast(f, target, r) <==> HasPowerOfTwo(a, b, 64) || forall x: nat :: !Reaches(f, target, x))
      && (2 * a <= b ==> IsLeast(f, target, r))
  }

  lemma EndsWithLeast(f: nat -> nat, target: nat, n: nat)
    requires Finished(Turns(f, target, n))
    ensures LeastOnBumps(f, target, Turns(f, target, n).best)
  {
    hide Turns, Finished, Bump, HasPowerOfTwo, IsLeast, Found, AllShort, Reaches;
    forall a, b | Bump(f, a, b)
      ensures var r := Turns(f, target, n).best;
        && (IsLeast(f, target, r) <==> HasPowerOfTwo(a, b, 64) || forall x: nat :: !Reaches(f, target, x))
        && (2 * a <= b ==> IsLeast(f, target, r))
    {
      BumpReturns(f, target, a, b);
      EndsWithFound(f, target, n);
      FoundIsLeast(f, target, a, b);
      BumpBounds(f, a, b);
      if 2 * a <= b {
        WideBumpHasPowerOfTwo(a, b);
      }
    }
  }

  lemma BumpBounds(f: nat -> nat, a: nat, b: nat)
    requires Bump(f, a, b)
    ensures 1 <= a <= b <= MAX_UINT64
  {
  }

  /** For monotone pools that pay nothing for nothing, these are the market's exact conditions. */
  lemma MarketSearch(m: TP.Market, maxHops: nat, src: Token, dst: Token, target: nat)
    requires TP.WellFormed(m) && TP.Monotone(m) && TP.NothingForNothing(m) && m.feeRateBPS <= BPS && src != dst
    ensures var f := Curve(m, maxHops, src, dst);
      && (Returns(f, target) <==> f(HALF) == 0 || f(MAX_UINT64) >= target)
      && (IsLeast(f, target, Found(f, target)) <==> f(HALF) > 0 || !Reaches(f, target, MAX_UINT64))
      && (Returns(f, target) ==> !AllShort(f, target))
  {
    hide Returns, IsLeast, Found, Reaches;
    var f := Curve(m, maxHops, src, dst);
    assert NonDecreasing(f) by {
      NothingFound(m, maxHops, src, dst);
      forall x: nat, y: nat | x <= y <= MAX_UINT64 ensures f(x) <= f(y) {
        TP.GoodTradePathMono(m, maxHops, src, dst, x, y);
      }
    }
    ReturnsOnNonDecreasing(f, target);
    FoundOnNonDecreasing(f, target);
    ProbeBounds(0);
    ProbeBounds(63);
    assert Short(f, target, 0) && Short(f, target, 63) ==> f(HALF) != 0 && f(MAX_UINT64) < target;
  }

  lemma NothingFound(m: TP.Market, maxHops: nat, src: Token, dst: Token)
    requires TP.WellFormed(m) && TP.NothingForNothing(m) && src != dst
    ensures TP.GoodTradePath(m, maxHops, src, dst, 0).receive == 0
  {
    if TP.GoodTradePath(m, maxHops, src, dst, 0).receive > 0 {
      TP.PathsHaveHops(m, maxHops, src, dst);
      var paths := SimplePaths.Take(TP.AllPaths(m, maxHops, src, dst), TP.MAX_PATHS);
      TP.BestRouteCorrect(m, paths, 0);
      var w :| w in paths && TP.GoodTradePath(m, maxHops, src, dst, 0) == TP.Greedy(m, w, 0);
      TP.GreedyZero(m, w);
      assert false;
    }
  }

  /** Given no input on which the loop runs forever; `ReturnsExactly` and `MarketSearch` say which those are. */
  method FindSellAmount(m: TP.Market, maxHops: nat, src: Token, dst: Token, expectedBuyAmount: nat)
    returns (bestPath: seq<Option<TP.Pool>>, sellAmount: nat)
    requires forall p :: p in m.pools ==> p.amplifier > 0
    requires Returns(Curve(m, maxHops, src, dst), expectedBuyAmount)
    ensures sellAmount != 0 ==> Reaches(Curve(m, maxHops, src, dst), expectedBuyAmount, sellAmount)
    ensures LeastOnBumps(Curve(m, maxHops, src, dst), expectedBuyAmount, sellAmount)
    ensures exists n: nat :: Finished(Turns(Curve(m, maxHops, src, dst), expectedBuyAmount, n))
                             && sellAmount == Turns(Curve(m, maxHops, src, dst), expectedBuyAmount, n).best
    ensures !AllShort(Curve(m, maxHops, src, dst), expectedBuyAmount) ==> sellAmount == Found(Curve(m, maxHops, src, dst), expectedBuyAmount)
    ensures Curve(m, maxHops, src, dst)(0) == 0 ==>
              bestPath == if sellAmount == 0 then [] else TP.GoodTradePath(m, maxHops, src, dst, sellAmount).pools
  {
    hide LeastOnBumps, AllShort, Found, Turn, Mid, TP.GoodTradePath, Reaches;
    ghost var f := Curve(m, maxHops, src, dst);
    ghost var last: nat :| Finished(Turns(f, expectedBuyAmount, last));
    ghost var n: nat := 0;
    var left: nat, right: nat := 1, MAX_UINT64;
    sellAmount, bestPath := 0, [];
    while left <= right
      invariant n <= last && Loop(left, right, sellAmount) == Turns(f, expectedBuyAmount, n)
      invariant f(0) == 0 ==> bestPath == if sellAmount == 0 then [] else TP.GoodTradePath(m, maxHops, src, dst, sellAmount).pools
      decreases last - n
    {
      var mid := Mid(left, right);
      var path, receive := Pathfinder.FindGoodTradePath(m, maxHops, src, dst, mid);
      assert receive == f(mid);
      var hit;
      left, right, hit := NextBounds(f, expectedBuyAmount, left, right, sellAmount, receive);
      if hit {
        sellAmount, bestPath := mid, path;
      }
      n := n + 1;
    }
    EndsWithLeast(f, expectedBuyAmount, n);
    FoundReaches(f, expectedBuyAmount, n);
    if !AllShort(f, expectedBuyAmount) {
      EndsWithFound(f, expectedBuyAmount, n);
    }
  }

  /** The branches of the loop body, for what the middle amount pays. */
  method NextBounds(ghost f: nat -> nat, target: nat, left: nat, right: nat, best: nat, receive: nat)
    returns (l: nat, r: nat, hit: bool)
    requires left <= right && receive == f(Mid(left, right))
    ensures Loop(l, r, if hit then Mid(left, right) else best) == Turn(f, target, Loop(left, right, best))
    ensures hit ==> receive != 0
  {
    var mid := Mid(left, right);
    l, r, hit := left, right, false;
    if receive == 0 {
      if best == 0 {
        r := Dec(mid);
      } else {
        l := Inc(mid);
      }
    } else if receive >= target {
      hit := true;
      r := Dec(mid);
    } else {
      l := Inc(mid);
    }
  }
}
