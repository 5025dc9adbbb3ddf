/** The amount arithmetic of a compounding run. BigNumber values are `int`
    (signed, unbounded, truncating division); JavaScript numbers are `real`,
    so `Math.floor` of a double becomes `.Floor` of an exact real. */
module Amounts {
  import opened Chain
  import opened MathUtils

  /** The fixed-point denominator of every fraction (basis points). */
  const BPS: int := 10000

  /** `parseEther('0.0001')`: the dust threshold, 10^14 wei. */
  const EPSILON: int := 100_000_000_000_000

  /** `BigNumber.div`: integer division truncated toward zero. */
  function TruncDiv(a: int, d: int): (q: int)
    requires d > 0
    ensures a >= 0 ==> 0 <= q && q * d <= a < q * d + d
    ensures a < 0 ==> q <= 0 && q * d - d < a <= q * d
  {
    if a >= 0 then
      DivBounds(a, d);
      a / d
    else
      DivBounds(-a, d);
      var m := (-a) / d;
      assert (-m) * d == -(m * d);
      -m
  }

  /** Euclidean division of a non-negative dividend brackets it between
      two consecutive multiples of the divisor. */
  lemma DivBounds(n: nat, d: int)
    requires d > 0
    ensures 0 <= n / d && (n / d) * d <= n < (n / d) * d + d
  {
    var q, r := n / d, n % d;
    assert n == q * d + r && 0 <= r < d;
    if q < 0 {
      assert q * d <= -d by { MulNegative(q, d); }
    }
  }

  lemma MulNegative(q: int, d: int)
    requires q < 0 && d > 0
    ensures q * d <= -d
  {
    var p := -q - 1;
    assert p >= 0;
    assert q * d == -d - p * d;
  }

  /** `x.mul(f).div(10000)`: `x` scaled by `f` basis points, truncated. */
  function ApplyBps(x: int, f: int): (r: int)
    ensures 0 <= f <= BPS && 0 <= x ==> 0 <= r <= x
    ensures 0 <= f <= BPS && x <= 0 ==> x <= r <= 0
    ensures f == BPS ==> r == x
    ensures f == 0 ==> r == 0
  {
    var p := x * f;
    assert 0 <= f <= BPS && 0 <= x ==> 0 <= p <= x * BPS by {
      if 0 <= f <= BPS && 0 <= x { MulBounds(x, f); }
    }
    assert 0 <= f <= BPS && x <= 0 ==> x * BPS <= p <= 0 by {
      if 0 <= f <= BPS && x <= 0 { MulBounds(-x, f); }
    }
    TruncDiv(p, BPS)
  }

  lemma MulBounds(x: nat, f: int)
    requires 0 <= f <= BPS
    ensures 0 <= x * f <= x * BPS
  {
  }

  /** The share of the after-claim token balance that is sold: `0.5 * (1 + f0)`. */
  function SwapShare(f0: real): real
  {
    0.5 * (1.0 + f0)
  }

  /** The share of the ether received that is put back into the pool:
      `(1 - f0) / (1 + f0)`. */
  function LiquidityEtherShare(f0: real): real
    requires 0.0 <= f0
  {
    (1.0 - f0) / (1.0 + f0)
  }

  /** `SWAP_FRACTION = Math.floor(0.5 * (1 + f0) * 10000)`. */
  function SwapFraction(f0: real): (r: int)
    requires 0.0 <= f0 <= 1.0
    ensures 5000 <= r <= BPS
    ensures f0 == 0.0 ==> r == 5000
    ensures f0 == 1.0 ==> r == BPS
  {
    (SwapShare(f0) * 10000.0).Floor
  }

  /** `LIQUIDITY_ETHER_FRACTION = Math.floor((1 - f0) / (1 + f0) * 10000)`. */
  function LiquidityEtherFraction(f0: real): (r: int)
    requires 0.0 <= f0 <= 1.0
    ensures 0 <= r <= BPS
    ensures f0 == 0.0 ==> r == BPS
    ensures f0 == 1.0 ==> r == 0
  {
    LiquidityEtherShareBounds(f0);
    (LiquidityEtherShare(f0) * 10000.0).Floor
  }

  lemma LiquidityEtherShareBounds(f0: real)
    requires 0.0 <= f0 <= 1.0
    ensures 0.0 <= LiquidityEtherShare(f0) <= 1.0
    ensures f0 == 0.0 ==> LiquidityEtherShare(f0) == 1.0
    ensures f0 == 1.0 ==> LiquidityEtherShare(f0) == 0.0
  {
    assert 1.0 + f0 > 0.0;
    assert 0.0 <= 1.0 - f0 <= 1.0 + f0;
    UnitQuotient(1.0 - f0, 1.0 + f0);
  }

  /** A quotient of a non-negative number by one at least as large lies in [0, 1]. */
  lemma UnitQuotient(x: real, y: real)
    requires 0.0 <= x <= y && 0.0 < y
    ensures 0.0 <= x / y <= 1.0
    ensures x == 0.0 ==> x / y == 0.0
    ensures x == y ==> x / y == 1.0
  {
    var q := x / y;
    assert q * y == x;
  }

  /** Why the two fractions go together: of every unit of reward token, the
      share `s` that is sold yields ether, and the share `(1 - s) / s` of that
      ether is exactly what the `1 - s` tokens kept back are worth at that
      price. So `LiquidityEtherShare * SwapShare == 1 - SwapShare`. */
  lemma SharesBalance(f0: real)
    requires 0.0 <= f0 <= 1.0
    ensures LiquidityEtherShare(f0) * SwapShare(f0) == 1.0 - SwapShare(f0)
  {
    var q := LiquidityEtherShare(f0);
    assert q * (1.0 + f0) == 1.0 - f0;
    calc {
      q * SwapShare(f0);
      0.5 * (q * (1.0 + f0));
      0.5 * (1.0 - f0);
    }
  }

  /** The slippage tolerance of a run: the global value clamped to [0, 1],
      replaced by the pool's own value, clamped, when the pool has one. */
  function ResolveSlippage(global: real, pool: Option<real>): (s: real)
    ensures 0.0 <= s <= 1.0
    ensures pool.None? ==> s == Clamp(global, 0.0, 1.0)
    ensures pool.Some? ==> s == Clamp(pool.value, 0.0, 1.0)
    ensures pool.Some? && 0.0 <= pool.value <= 1.0 ==> s == pool.value
  {
    match pool
    case None => Clamp(global, 0.0, 1.0)
    case Some(p) => Clamp(p, 0.0, 1.0)
  }

  /** The profit fraction `f0`: 0 unless the pool sets one, then clamped. */
  function ProfitFraction(pool: Option<real>): (f0: real)
    ensures 0.0 <= f0 <= 1.0
    ensures pool.None? ==> f0 == 0.0
    ensures pool.Some? && 0.0 <= pool.value <= 1.0 ==> f0 == pool.value
  {
    match pool
    case None => 0.0
    case Some(p) => Clamp(p, 0.0, 1.0)
  }

  /** `BigNumber.from((1 - s) * 10000)`: the factor applied to the desired
      liquidity amounts. `BigNumber.from` throws on a number that is not an
      integer, which is `None` here. */
  function SlippageFactor(s: real): (r: Option<int>)
    ensures r.Some? ==> r.value as real == (1.0 - s) * 10000.0
    ensures r.None? ==> ((1.0 - s) * 10000.0).Floor as real != (1.0 - s) * 10000.0
    ensures 0.0 <= s <= 1.0 && r.Some? ==> 0 <= r.value <= BPS
    ensures s == 0.0 ==> r == Some(BPS)
    ensures s == 1.0 ==> r == Some(0)
  {
    var x := (1.0 - s) * 10000.0;
    if x.Floor as real == x then Some(x.Floor) else None
  }

  /** The real-valued minimum output the scripts aim at when selling
      `amount` tokens at `price` ether per token with the given tolerance. */
  function IdealMinOut(amount: real, price: real, tolerance: real): (r: real)
    ensures 0.0 <= amount && 0.0 <= price && 0.0 <= tolerance <= 1.0 ==>
              0.0 <= r <= amount * price
    ensures tolerance == 0.0 ==> r == amount * price
    ensures tolerance == 1.0 ==> r == 0.0
  {
    var full := amount * price;
    NonNegativeProduct(amount, price);
    ScaleByUnit(full, 1.0 - tolerance);
    full * (1.0 - tolerance)
  }

  lemma NonNegativeProduct(x: real, y: real)
    ensures 0.0 <= x && 0.0 <= y ==> 0.0 <= x * y
  {
  }

  /** Scaling a non-negative number by a factor in [0, 1] keeps it between 0 and itself. */
  lemma ScaleByUnit(x: real, t: real)
    ensures 0.0 <= x && 0.0 <= t <= 1.0 ==> 0.0 <= x * t <= x
  {
    NonNegativeProduct(x, t);
    NonNegativeProduct(x, 1.0 - t);
  }

  /** Selling 500 tokens at 0.01 ether each with a 30% tolerance asks for at
      least 3.5 ether; with no tolerance, 100 tokens at 2.0 ask for 200. */
  lemma IdealMinOutExamples()
    ensures IdealMinOut(500.0, 0.01, 0.3) == 3.5
    ensures IdealMinOut(100.0, 2.0, 0.0) == 200.0
  {
  }
}
