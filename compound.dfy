/** What a compounding run starts from: the pool's configuration, the
    addresses the DEX reports, and what the run observes on chain (balance
    snapshots, clock readings, events). The three scripts differ only in
    which of these they read. */
module Compound {
  import opened Chain
  import opened Amounts

  /** One entry of `config.pools` (with the global slippage beside it). */
  datatype PoolConfig = PoolConfig(
    pid: nat,
    token: Address,
    farm: Address,
    hasFees: bool,                    // an absent `hasFees` reads as false
    slippageTolerance: Option<real>,
    profitFraction: Option<real>)

  datatype Config = Config(globalSlippage: real, pool: PoolConfig)

  /** The router and the factory, and what the chain reports for them:
      `router.WETH()` and `factory.getPair(token, WETH)`. uniswap-utils.ts
      and auto-compound.ts ask the router for its factory; auto_compound.ts
      takes it from the configuration (`DEXInfo.factory`). No run sends a
      call to the factory. */
  datatype DexAddresses = DexAddresses(router: Address, factory: Address, weth: Address, pair: Address)

  /** What the run reads from the chain, in the order it reads it. The
      balance snapshots are taken after each awaited transaction;
      `amountOutMin` is the floating-point estimate built from the pair's
      reserves, never negative when the amount sold is not; the clocks are `Date.now()` when the swap and the liquidity
      add are built; `mintEvents` are the LP pair's `Transfer` events after the
      listener is registered (read by yummy.ts), `lpBalance` the wallet's LP
      balance after the add (read by the other two scripts). */
  datatype Observations = Observations(
    wallet: Address,
    initial: Balances,
    afterClaim: Balances,
    afterSwap: Balances,
    amountOutMin: nat,
    swapClockMs: nat,
    addClockMs: nat,
    mintEvents: seq<TransferEvent>,
    lpBalance: nat)

  /** The run's slippage tolerance. */
  function Slippage(cfg: Config): real
  {
    ResolveSlippage(cfg.globalSlippage, cfg.pool.slippageTolerance)
  }

  /** The run's profit fraction `f0`. */
  function F0(cfg: Config): real
  {
    ProfitFraction(cfg.pool.profitFraction)
  }

  /** `afterClaimTokenBalance.mul(SWAP_FRACTION).div(10000)`: at least half
      of the balance (up to truncation) and at most all of it; exactly half
      with no profit taken, all of it with everything taken as profit. */
  function TokensToSwap(cfg: Config, obs: Observations): (r: int)
    ensures 0 <= r <= obs.afterClaim.token <= 2 * r + 1
    ensures F0(cfg) == 0.0 ==> r == obs.afterClaim.token / 2
    ensures F0(cfg) == 1.0 ==> r == obs.afterClaim.token
  {
    var x, f := obs.afterClaim.token, SwapFraction(F0(cfg));
    AtLeastHalf(x, f);
    ApplyBps(x, f)
  }

  lemma AtLeastHalf(x: nat, f: int)
    requires 5000 <= f <= BPS
    ensures x <= 2 * ApplyBps(x, f) + 1
    ensures f == 5000 ==> ApplyBps(x, f) == x / 2
  {
    var p := x * f;
    assert 5000 * x <= p by { MulBounds(x, f - 5000); }
    var r := TruncDiv(p, BPS);
    assert ApplyBps(x, f) == r;
    assert r * BPS <= p < r * BPS + BPS;
    if f == 5000 {
      var h := x / 2;
      assert x == 2 * h + x % 2;
      assert h * BPS <= p < h * BPS + BPS;
    }
  }

  /** `ethReceived = afterSwapEtherBalance - afterClaimEtherBalance`: what
      the swap added to the ether balance, non-negative exactly when the
      swap guard passes. */
  function EthReceived(obs: Observations): (r: int)
    ensures 0 <= r <==> SwapKeptEther(obs)
    ensures obs.afterClaim.ether + r == obs.afterSwap.ether
  {
    obs.afterSwap.ether - obs.afterClaim.ether
  }

  /** The swap did not lower the ether balance. */
  predicate SwapKeptEther(obs: Observations)
  {
    obs.afterClaim.ether <= obs.afterSwap.ether
  }

  /** The run goes on to add liquidity: the swap guard passed and more than
      dust is left of the reward token. */
  predicate GoesOnToCompound(obs: Observations)
  {
    SwapKeptEther(obs) && EPSILON < obs.afterSwap.token
  }
}
