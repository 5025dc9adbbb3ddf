/** The earlier compounding run of auto_compound.ts: it sells half of the
    tokens just claimed, has neither a swap guard nor a dust exit, approves
    the router only for the liquidity add, asks for 90% minimums with a
    ten-minute deadline, and stakes the wallet's whole LP balance. With no
    guard, a negative amount reaches ethers, which refuses to encode it:
    the run then stops at that call. */
module LegacyAutoCompound {
  import opened Chain
  import opened Amounts
  import opened UniswapUtils
  import opened Compound

  const GAS_LIMIT: nat := 250000
  /** The fixed share of the desired amounts the liquidity add insists on. */
  const LIQUIDITY_MIN_BPS: int := 9000
  const LIQUIDITY_DEADLINE_SECONDS: int := 600

  /** `claimedTokens.div(2)`, truncated toward zero. */
  function TokensToSwap(obs: Observations): (r: int)
    ensures var claimed := obs.afterClaim.token - obs.initial.token;
      && (claimed >= 0 ==> 0 <= r && 2 * r <= claimed <= 2 * r + 1)
      && (claimed < 0 ==> r <= 0 && 2 * r - 1 <= claimed <= 2 * r)
  {
    TruncDiv(obs.afterClaim.token - obs.initial.token, 2)
  }

  /** One run; `trace` lists the transactions submitted, in order. */
  method Run(pool: PoolConfig, dex: DexAddresses, obs: Observations)
    returns (trace: seq<Call>, outcome: Outcome)
    // every call sent could be encoded
    ensures 1 <= |trace| <= 6
    ensures forall i :: 0 <= i < |trace| ==> Encodable(trace[i])
    ensures trace[0] == Withdraw(pool.farm, pool.pid, 0, None)
    // where the run stops: a negative sale, a negative liquidity amount, a negative ether difference
    ensures outcome == Staked(obs.lpBalance) || outcome == Aborted(AmountRefused)
    ensures outcome.Staked? <==> EPSILON <= TokensToSwap(obs) && 0 <= EthReceived(obs)
    ensures TokensToSwap(obs) < 0 ==> |trace| == 1
    ensures 0 <= TokensToSwap(obs) < EPSILON ==> |trace| == 2
    ensures EPSILON <= TokensToSwap(obs) && EthReceived(obs) < 0 ==> |trace| == 3
    ensures outcome.Staked? ==> |trace| == 6
    // a claim under twice the dust threshold never reaches the liquidity add
    ensures obs.afterClaim.token - obs.initial.token < 2 * EPSILON ==>
              outcome == Aborted(AmountRefused) && |trace| <= 2
    // no approval precedes the sale
    ensures 2 <= |trace| ==>
      var s := trace[1];
      && s.Swap? && s.router == dex.router
      && (s.entry == SwapExactTokensForETHSupportingFeeOnTransferTokens <==> pool.hasFees)
      && s.amountIn == TokensToSwap(obs)
      && s.amountOutMin == obs.amountOutMin
      && s.path == [pool.token, dex.weth] && s.to == obs.wallet
      && s.deadline == obs.swapClockMs / 1000 + DEADLINE_SECONDS
      && s.gasLimit == Some(GAS_LIMIT)
    // the approval is for exactly the tokens about to be added
    ensures 3 <= |trace| ==> trace[2] == Approve(pool.token, dex.router, TokensToSwap(obs) - EPSILON)
    ensures 4 <= |trace| ==>
      var a := trace[3];
      && a.AddLiquidityETH? && a.router == dex.router && a.token == pool.token
      && a.to == obs.wallet
      // the raw ether difference, with no guard
      && a.value == EthReceived(obs)
      && a.amountTokenDesired == TokensToSwap(obs) - EPSILON
      && a.amountTokenMin == ApplyBps(a.amountTokenDesired, LIQUIDITY_MIN_BPS)
      && a.amountETHMin == ApplyBps(a.value, LIQUIDITY_MIN_BPS)
      && 0 <= a.amountTokenMin <= a.amountTokenDesired
      && 0 <= a.amountETHMin <= a.value
      && a.deadline == obs.addClockMs / 1000 + LIQUIDITY_DEADLINE_SECONDS
      && a.gasLimit == Some(GAS_LIMIT)
    // the wallet's whole LP balance is approved and staked
    ensures outcome.Staked? ==>
              && trace[4] == Approve(dex.pair, pool.farm, obs.lpBalance)
              && trace[5] == Deposit(pool.farm, pool.pid, obs.lpBalance)
  {
    // harvest
    var tx := Withdraw(pool.farm, pool.pid, 0, None);
    trace := [tx];
    var afterClaim := obs.afterClaim;
    var claimedTokens := afterClaim.token - obs.initial.token;

    // sell half of what was claimed
    var tokensToSwap := TruncDiv(claimedTokens, 2);
    var deadline := obs.swapClockMs / 1000 + DEADLINE_SECONDS;
    if !pool.hasFees {
      tx := Swap(dex.router, SwapExactTokensForETH, tokensToSwap, obs.amountOutMin,
                 [pool.token, dex.weth], obs.wallet, deadline, Some(GAS_LIMIT));
    } else {
      tx := Swap(dex.router, SwapExactTokensForETHSupportingFeeOnTransferTokens, tokensToSwap,
                 obs.amountOutMin, [pool.token, dex.weth], obs.wallet, deadline, Some(GAS_LIMIT));
    }
    if !Encodable(tx) {
      return trace, Aborted(AmountRefused);
    }
    trace := trace + [tx];

    var afterSwap := obs.afterSwap;
    var ethLiquidityAmount := afterSwap.ether - afterClaim.ether;
    var tokLiquidityAmount := tokensToSwap - EPSILON;

    // approve, add liquidity with 90% minimums
    tx := Approve(pool.token, dex.router, tokLiquidityAmount);
    if !Encodable(tx) {
      return trace, Aborted(AmountRefused);
    }
    trace := trace + [tx];
    tx := AddLiquidityETH(dex.router, pool.token, tokLiquidityAmount,
                          ApplyBps(tokLiquidityAmount, LIQUIDITY_MIN_BPS),
                          ApplyBps(ethLiquidityAmount, LIQUIDITY_MIN_BPS),
                          obs.wallet, obs.addClockMs / 1000 + LIQUIDITY_DEADLINE_SECONDS,
                          ethLiquidityAmount, Some(GAS_LIMIT));
    if !Encodable(tx) {
      return trace, Aborted(AmountRefused);
    }
    trace := trace + [tx];

    // stake the whole LP balance
    var lpBalance := obs.lpBalance;
    tx := Approve(dex.pair, pool.farm, lpBalance);
    trace := trace + [tx];
    tx := Deposit(pool.farm, pool.pid, lpBalance);
    trace := trace + [tx];
    outcome := Staked(lpBalance);
  }
}
