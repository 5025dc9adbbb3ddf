/** The compounding run of scripts/yummy/yummy.ts: harvest, approve, sell
    through the `Uniswap` object, guard, skip when only dust is left, add
    liquidity through the `Uniswap` object, approve and stake exactly the
    minted LP amount. */
module Yummy {
  import opened Chain
  import opened Amounts
  import opened UniswapUtils
  import opened Compound

  /** Gas limit of the farm's `withdraw`. */
  const GAS_LIMIT: nat := 250000

  /** One run. `trace` lists the transactions submitted, in order; the
      balance comparisons are the numeric ones the guards mean (JavaScript
      compares the decimal strings, see `JsCompare`). */
  method Run(cfg: Config, dex: DexAddresses, obs: Observations)
    returns (trace: seq<Call>, outcome: Outcome)
    // harvest, then approve the router for the whole after-claim balance, then sell
    ensures 3 <= |trace| <= 6
    // with the numeric guards no amount sent is negative, so ethers refuses nothing
    ensures forall i :: 0 <= i < |trace| ==> Encodable(trace[i])
    ensures trace[0] == Withdraw(cfg.pool.farm, cfg.pool.pid, 0, Some(GAS_LIMIT))
    ensures trace[1] == Approve(cfg.pool.token, dex.router, obs.afterClaim.token)
    ensures var s := trace[2];
      && s.Swap? && s.router == dex.router
      && s.entry == SwapEntryFor(cfg.pool.hasFees)
      && s.amountIn == TokensToSwap(cfg, obs)
      && 0 <= s.amountIn <= trace[1].amount
      && s.amountOutMin == obs.amountOutMin
      && s.path == [cfg.pool.token, dex.weth] && s.to == obs.wallet
      && s.deadline == obs.swapClockMs / 1000 + DEADLINE_SECONDS
      && s.gasLimit == Some(GAS_LIMIT_SWAP_TOKEN_ETH)
    // the two early exits, and nothing submitted after them
    ensures outcome == Aborted(SwapFailed) <==> !SwapKeptEther(obs)
    ensures outcome == NothingToCompound <==> SwapKeptEther(obs) && obs.afterSwap.token <= EPSILON
    ensures !GoesOnToCompound(obs) ==> |trace| == 3
    ensures outcome == Aborted(SlippageFactorInvalid) <==>
              GoesOnToCompound(obs) && SlippageFactor(Slippage(cfg)).None?
    ensures outcome == Aborted(SlippageFactorInvalid) ==> |trace| == 3
    // the liquidity add
    ensures 3 < |trace| ==>
      var a := trace[3];
      var f := SlippageFactor(Slippage(cfg)).value;
      && GoesOnToCompound(obs) && SlippageFactor(Slippage(cfg)).Some?
      && a.AddLiquidityETH? && a.router == dex.router && a.token == cfg.pool.token
      && a.to == obs.wallet
      && a.value == ApplyBps(EthReceived(obs), LiquidityEtherFraction(F0(cfg)))
      && 0 <= a.value <= EthReceived(obs)
      && a.amountTokenDesired == obs.afterSwap.token - EPSILON > 0
      && a.amountTokenMin == ApplyBps(a.amountTokenDesired, f)
      && 0 <= a.amountTokenMin <= a.amountTokenDesired
      && a.amountETHMin == ApplyBps(a.value, f)
      && 0 <= a.amountETHMin <= a.value
      && a.deadline == obs.addClockMs / 1000 + DEADLINE_SECONDS
      && a.gasLimit == Some(GAS_LIMIT_ADD_LIQUIDITY)
    // if the sale took exactly `tokensToSwap`, the one approval covers both pulls
    ensures 3 < |trace| && obs.afterSwap.token + trace[2].amountIn == obs.afterClaim.token ==>
              trace[2].amountIn + trace[3].amountTokenDesired <= trace[1].amount
    // the wait for the minted amount
    ensures outcome == Aborted(Timeout) <==>
              GoesOnToCompound(obs) && SlippageFactor(Slippage(cfg)).Some? &&
              AwaitMint(obs.mintEvents, obs.wallet).Err?
    ensures outcome == Aborted(Timeout) ==> |trace| == 4
    // staking exactly what was minted
    ensures outcome.Staked? <==>
              GoesOnToCompound(obs) && SlippageFactor(Slippage(cfg)).Some? &&
              AwaitMint(obs.mintEvents, obs.wallet).Ok?
    ensures outcome.Staked? ==>
              && |trace| == 6
              && AwaitMint(obs.mintEvents, obs.wallet) == Ok(outcome.lpAmount)
              && trace[4] == Approve(dex.pair, cfg.pool.farm, outcome.lpAmount)
              && trace[5] == Deposit(cfg.pool.farm, cfg.pool.pid, outcome.lpAmount)
  {
    var pool := cfg.pool;
    // clamp the tolerance and the profit fraction, then derive the split
    var slippageTolerance := Slippage(cfg);
    var liquidityEtherFraction := LiquidityEtherFraction(F0(cfg));

    var uniswap := new Uniswap(dex.router, dex.factory, dex.weth);
    uniswap.SetSlippage(slippageTolerance);

    // harvest
    var withdraw := Withdraw(pool.farm, pool.pid, 0, Some(GAS_LIMIT));
    var afterClaim := obs.afterClaim;

    // approve the router for the whole balance, then sell `SWAP_FRACTION` of it
    var tokensToSwap := TokensToSwap(cfg, obs);
    var approve := Approve(pool.token, uniswap.router, afterClaim.token);
    var sent := uniswap.SellToken(pool.token, tokensToSwap, obs.wallet, pool.hasFees,
                                  obs.amountOutMin, obs.swapClockMs);
    // `tokensToSwap` and `amountOutMin` are non-negative, so the sale is sent
    var sell := sent.value;
    assert Encodable(withdraw) && Encodable(approve);
    trace := [withdraw, approve, sell];

    var afterSwap := obs.afterSwap;
    if afterSwap.ether < afterClaim.ether {
      return trace, Aborted(SwapFailed);
    }
    var ethReceived := EthReceived(obs);
    if afterSwap.token <= EPSILON {
      return trace, NothingToCompound;
    }

    // add liquidity
    var ethLiquidityAmount := ApplyBps(ethReceived, liquidityEtherFraction);
    var tokLiquidityAmount := afterSwap.token - EPSILON;
    var added, lp := uniswap.AddLiquidity(pool.token, tokLiquidityAmount, ethLiquidityAmount,
                                         obs.wallet, obs.addClockMs, obs.mintEvents);
    if lp.Err? {
      return trace + added, Aborted(lp.failure);
    }
    var lpAmount := lp.value;

    // stake exactly the minted amount
    var approveLp := Approve(dex.pair, pool.farm, lpAmount);
    var deposit := Deposit(pool.farm, pool.pid, lpAmount);
    trace := trace + added + [approveLp, deposit];
    outcome := Staked(lpAmount);
  }
}
