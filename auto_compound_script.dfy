/** The compounding run of scripts/auto-compound/auto-compound.ts: the same
    pipeline as yummy.ts written inline against the router, with its own
    reserve ordering, a 250000 gas limit on every call it limits, and
    staking of the wallet's whole LP balance. */
module AutoCompound {
  import opened Chain
  import opened Amounts
  import opened UniswapUtils
  import opened Compound

  const GAS_LIMIT: nat := 250000

  /** `etherReserve` and `tokenReserve`: the reserve at index 0 belongs to
      WETH exactly when the pair's `token0` is WETH. */
  function EtherAndTokenReserves(pair: Pair, weth: Address): (r: (nat, nat))
    ensures r.0 == (if pair.token0 == weth then pair.reserve0 else pair.reserve1)
    ensures r.1 == (if pair.token0 == weth then pair.reserve1 else pair.reserve0)
  {
    if pair.token0 == weth then (pair.reserve0, pair.reserve1)
    else (pair.reserve1, pair.reserve0)
  }

  /** The inline ordering is `getReserves(WETH, token)`, and the price it
      derives, ether reserve over token reserve, is `getTokenPrice(token, WETH)`. */
  lemma EtherAndTokenReservesAgree(pair: Pair, weth: Address, token: Address)
    requires pair.token0 != pair.token1
    requires {weth, token} == {pair.token0, pair.token1}
    ensures EtherAndTokenReserves(pair, weth) == GetReserves(pair, weth)
    ensures EtherAndTokenReserves(pair, weth).1 > 0 ==>
              GetTokenPrice(pair, token) ==
              Some(EtherAndTokenReserves(pair, weth).0 as real / EtherAndTokenReserves(pair, weth).1 as real)
  {
    GetReservesBelongToTokens(pair, weth, token);
    GetReservesBelongToTokens(pair, token, weth);
  }

  /** One run; `trace` lists the transactions submitted, in order. */
  method Run(cfg: Config, dex: DexAddresses, obs: Observations)
    returns (trace: seq<Call>, outcome: Outcome)
    ensures 3 <= |trace| <= 6
    // with the numeric guards no amount sent is negative, so ethers refuses nothing
    ensures forall i :: 0 <= i < |trace| ==> Encodable(trace[i])
    ensures trace[0] == Withdraw(cfg.pool.farm, cfg.pool.pid, 0, None)
    ensures trace[1] == Approve(cfg.pool.token, dex.router, obs.afterClaim.token)
    ensures var s := trace[2];
      && s.Swap? && s.router == dex.router
      && (s.entry == SwapExactTokensForETHSupportingFeeOnTransferTokens <==> cfg.pool.hasFees)
      && s.amountIn == TokensToSwap(cfg, obs)
      && 0 <= s.amountIn <= trace[1].amount
      && s.amountOutMin == obs.amountOutMin
      && s.path == [cfg.pool.token, dex.weth] && s.to == obs.wallet
      && s.deadline == obs.swapClockMs / 1000 + DEADLINE_SECONDS
      && s.gasLimit == Some(GAS_LIMIT)
    ensures outcome == Aborted(SwapFailed) <==> !SwapKeptEther(obs)
    ensures outcome == NothingToCompound <==> SwapKeptEther(obs) && obs.afterSwap.token <= EPSILON
    ensures outcome == Aborted(SlippageFactorInvalid) <==>
              GoesOnToCompound(obs) && SlippageFactor(Slippage(cfg)).None?
    ensures !outcome.Staked? ==> |trace| == 3
    ensures outcome.Staked? <==> GoesOnToCompound(obs) && SlippageFactor(Slippage(cfg)).Some?
    ensures outcome.Staked? ==> |trace| == 6
    ensures outcome.Staked? ==>
      var a := trace[3];
      var f := SlippageFactor(Slippage(cfg)).value;
      && a.AddLiquidityETH? && a.router == dex.router && a.token == cfg.pool.token
      && a.to == obs.wallet
      && a.value == ApplyBps(EthReceived(obs), LiquidityEtherFraction(F0(cfg)))
      && 0 <= a.value <= EthReceived(obs)
      && a.amountTokenDesired == obs.afterSwap.token - EPSILON > 0
      && a.amountTokenMin == ApplyBps(a.amountTokenDesired, f)
      && 0 <= a.amountTokenMin <= a.amountTokenDesired
      && a.amountETHMin == ApplyBps(a.value, f)
      && 0 <= a.amountETHMin <= a.value
      && a.deadline == obs.addClockMs / 1000 + DEADLINE_SECONDS
      && a.gasLimit == Some(GAS_LIMIT)
      // the whole LP balance, not just what this add minted, is approved and staked
      && outcome.lpAmount == obs.lpBalance
      && trace[4] == Approve(dex.pair, cfg.pool.farm, obs.lpBalance)
      && trace[5] == Deposit(cfg.pool.farm, cfg.pool.pid, obs.lpBalance)
  {
    var pool := cfg.pool;
    // the script's own clamp, applied as in yummy.ts
    var slippageTolerance := Slippage(cfg);
    var liquidityEtherFraction := LiquidityEtherFraction(F0(cfg));

    // harvest
    var tx := Withdraw(pool.farm, pool.pid, 0, None);
    trace := [tx];
    var afterClaim := obs.afterClaim;
    var tokensToSwap := TokensToSwap(cfg, obs);

    // approve the router for the whole balance, then sell
    tx := Approve(pool.token, dex.router, afterClaim.token);
    trace := trace + [tx];
    var deadline := obs.swapClockMs / 1000 + DEADLINE_SECONDS;
    if !pool.hasFees {
      tx := Swap(dex.router, SwapExactTokensForETH, tokensToSwap, obs.amountOutMin,
                 [pool.token, dex.weth], obs.wallet, deadline, Some(GAS_LIMIT));
    } else {
      tx := Swap(dex.router, SwapExactTokensForETHSupportingFeeOnTransferTokens, tokensToSwap,
                 obs.amountOutMin, [pool.token, dex.weth], obs.wallet, deadline, Some(GAS_LIMIT));
    }
    assert Encodable(trace[0]) && Encodable(trace[1]) && Encodable(tx);
    trace := trace + [tx];

    var afterSwap := obs.afterSwap;
    if afterSwap.ether < afterClaim.ether {
      return trace, Aborted(SwapFailed);
    }
    var ethReceived := EthReceived(obs);
    if afterSwap.token <= EPSILON {
      return trace, NothingToCompound;
    }

    // add liquidity
    var ethLiquidityAmount := ApplyBps(ethReceived, liquidityEtherFraction);
    var tokLiquidityAmount := afterSwap.token - EPSILON;
    var slippageFactor := SlippageFactor(slippageTolerance);
    if slippageFactor.None? {
      return trace, Aborted(SlippageFactorInvalid);
    }
    tx := AddLiquidityETH(dex.router, pool.token, tokLiquidityAmount,
                          ApplyBps(tokLiquidityAmount, slippageFactor.value),
                          ApplyBps(ethLiquidityAmount, slippageFactor.value),
                          obs.wallet, obs.addClockMs / 1000 + DEADLINE_SECONDS,
                          ethLiquidityAmount, Some(GAS_LIMIT));
    assert Encodable(tx);
    trace := trace + [tx];

    // stake the whole LP balance
    var lpBalance := obs.lpBalance;
    tx := Approve(dex.pair, pool.farm, lpBalance);
    trace := trace + [tx];
    tx := Deposit(pool.farm, pool.pid, lpBalance);
    trace := trace + [tx];
    outcome := Staked(lpBalance);
  }
}
