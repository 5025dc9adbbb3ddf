/** The Uniswap V2 client: reserve ordering and spot price (pure, over a
    snapshot of the pair), and the `Uniswap` object that keeps the router,
    factory, WETH and the slippage tolerance and builds the sell and
    add-liquidity transactions. */
module UniswapUtils {
  import opened Chain
  import opened MathUtils
  import opened Amounts

  const GAS_LIMIT_SWAP_TOKEN_ETH: nat := 200000
  const GAS_LIMIT_ADD_LIQUIDITY: nat := 250000
  /** Every router call expires 100 s after it is built. */
  const DEADLINE_SECONDS: int := 100
  /** How long `addLiquidity` waits for the LP `Transfer` event. */
  const MINT_TIMEOUT_MS: nat := 20000
  const DEFAULT_SLIPPAGE: real := 0.01

  /** What `pair.token0()`, `pair.token1()` and `pair.getReserves()` report. */
  datatype Pair = Pair(token0: Address, token1: Address, reserve0: nat, reserve1: nat)

  /** The reserve the pair holds of `t`, one of its two tokens. */
  function ReserveOf(pair: Pair, t: Address): nat
    requires t == pair.token0 || t == pair.token1
  {
    if t == pair.token0 then pair.reserve0 else pair.reserve1
  }

  /** `getReserves(tokenA, tokenB)`: the raw reserves, reordered so that the
      first one belongs to `tokenA`. */
  function GetReserves(pair: Pair, tokenA: Address): (r: (nat, nat))
    ensures pair.token0 == tokenA ==> r == (pair.reserve0, pair.reserve1)
    ensures pair.token0 != tokenA ==> r == (pair.reserve1, pair.reserve0)
    ensures multiset{r.0, r.1} == multiset{pair.reserve0, pair.reserve1}
  {
    if pair.token0 == tokenA then (pair.reserve0, pair.reserve1)
    else (pair.reserve1, pair.reserve0)
  }

  /** Whatever the pair's internal order, the reordered reserves are those of
      `tokenA` and `tokenB`, in that order. */
  lemma GetReservesBelongToTokens(pair: Pair, tokenA: Address, tokenB: Address)
    requires pair.token0 != pair.token1
    requires {tokenA, tokenB} == {pair.token0, pair.token1}
    ensures GetReserves(pair, tokenA) == (ReserveOf(pair, tokenA), ReserveOf(pair, tokenB))
  {
    assert tokenA in {pair.token0, pair.token1};
    assert pair.token0 in {tokenA, tokenB} && pair.token1 in {tokenA, tokenB};
  }

  /** `getTokenPrice(tokenA, tokenB)`: units of `tokenB` per unit of `tokenA`,
      the reordered reserves' ratio. `None` stands for JavaScript's
      `Infinity`/`NaN` when `tokenA`'s reserve is empty. */
  function GetTokenPrice(pair: Pair, tokenA: Address): (r: Option<real>)
    ensures r.None? <==> GetReserves(pair, tokenA).0 == 0
    ensures r.Some? ==> r.value * GetReserves(pair, tokenA).0 as real == GetReserves(pair, tokenA).1 as real
    ensures r.Some? ==> 0.0 <= r.value
  {
    var (ra, rb) := GetReserves(pair, tokenA);
    if ra == 0 then None else Some(rb as real / ra as real)
  }

  /** The price of a token in the other token of the pair is the inverse of
      the opposite price. */
  lemma PricesInverse(pair: Pair)
    requires pair.token0 != pair.token1
    requires pair.reserve0 > 0 && pair.reserve1 > 0
    ensures GetTokenPrice(pair, pair.token0).Some? && GetTokenPrice(pair, pair.token1).Some?
    ensures GetTokenPrice(pair, pair.token0).value * GetTokenPrice(pair, pair.token1).value == 1.0
  {
    var p := GetTokenPrice(pair, pair.token0).value;
    var q := GetTokenPrice(pair, pair.token1).value;
    var r0, r1 := pair.reserve0 as real, pair.reserve1 as real;
    assert p * r0 == r1;
    assert q * r1 == r0;
    calc {
      (p * q) * r1;
      p * (q * r1);
      p * r0;
      r1;
    }
    assert (p * q - 1.0) * r1 == 0.0;
  }

  /** The sell branch: the fee-on-transfer entry point exactly when the
      token is flagged as taking transfer fees. */
  function SwapEntryFor(supportFees: bool): (e: SwapEntry)
    ensures e == SwapExactTokensForETHSupportingFeeOnTransferTokens <==> supportFees
  {
    if supportFees then SwapExactTokensForETHSupportingFeeOnTransferTokens
    else SwapExactTokensForETH
  }

  /** The listener's test: the event pays `wallet` and arrives before the
      20 s timer rejects. */
  predicate IsMintTo(e: TransferEvent, wallet: Address)
  {
    e.to == wallet && e.atMs < MINT_TIMEOUT_MS
  }

  /** The LP amount `addLiquidity` returns: the value of the first event, in
      delivery order, that pays the wallet within the timeout; otherwise the
      `'timeout'` rejection. The arrival times need not be sorted. */
  function AwaitMint(events: seq<TransferEvent>, wallet: Address): (r: Result<nat>)
    ensures r.Err? ==> r.failure == Timeout
    ensures r.Err? <==> forall i :: 0 <= i < |events| ==> !IsMintTo(events[i], wallet)
    ensures r.Ok? ==> exists i :: 0 <= i < |events| && IsMintTo(events[i], wallet) &&
                        r.value == events[i].value &&
                        forall j :: 0 <= j < i ==> !IsMintTo(events[j], wallet)
  {
    if |events| == 0 then Err(Timeout)
    else if IsMintTo(events[0], wallet) then Ok(events[0].value)
    else
      var rest := AwaitMint(events[1..], wallet);
      assert forall i :: 1 <= i < |events| ==> events[i] == events[1..][i - 1];
      if rest.Ok? then
        var k :| 0 <= k < |events[1..]| && IsMintTo(events[1..][k], wallet) &&
                 rest.value == events[1..][k].value &&
                 forall j :: 0 <= j < k ==> !IsMintTo(events[1..][j], wallet);
        assert IsMintTo(events[k + 1], wallet);
        rest
      else
        rest
  }

  /** Transfers to other recipients, or after the timer, in front of the
      stream do not change which amount is taken. */
  lemma {:induction false} AwaitMintIgnoresOthers(others: seq<TransferEvent>, events: seq<TransferEvent>, wallet: Address)
    requires forall i :: 0 <= i < |others| ==> !IsMintTo(others[i], wallet)
    ensures AwaitMint(others + events, wallet) == AwaitMint(events, wallet)
  {
    if |others| == 0 {
      assert others + events == events;
    } else {
      assert (others + events)[0] == others[0];
      assert (others + events)[1..] == others[1..] + events;
      AwaitMintIgnoresOthers(others[1..], events, wallet);
    }
  }

  /** The DEX controller. Its constructor takes what `router.factory()` and
      `router.WETH()` report; `slippage` starts at 1% and stays in [0, 1]. */
  class Uniswap {
    var router: Address
    var factory: Address
    var weth: Address
    var slippage: real

    predicate Valid()
      reads this
    {
      0.0 <= slippage <= 1.0
    }

    constructor (routerAddress: Address, factoryAddress: Address, wethAddress: Address)
      ensures Valid()
      ensures router == routerAddress && factory == factoryAddress && weth == wethAddress
      ensures slippage == DEFAULT_SLIPPAGE
    {
      router := routerAddress;
      factory := factoryAddress;
      weth := wethAddress;
      slippage := DEFAULT_SLIPPAGE;
    }

    /** `setSlippage`: stores the tolerance clamped to [0, 1]. */
    method SetSlippage(s: real)
      modifies this
      ensures Valid()
      ensures slippage == Clamp(s, 0.0, 1.0)
      ensures 0.0 <= s <= 1.0 ==> slippage == s
      ensures router == old(router) && factory == old(factory) && weth == old(weth)
    {
      slippage := Clamp(s, 0.0, 1.0);
    }

    /** `sellToken`: sells `amount` tokens for ether to `wallet` through the
        entry point the fee flag selects. `amountOutMin` is the floating-point
        estimate taken from the pair's price; `nowMs` is `Date.now()`. The
        swap is refused before it is sent when an amount is negative. */
    method SellToken(token: Address, amount: int, wallet: Address, supportFees: bool,
                     amountOutMin: int, nowMs: nat) returns (sent: Result<Call>)
      ensures sent.Ok? <==> 0 <= amount && 0 <= amountOutMin
      ensures sent.Err? ==> sent.failure == AmountRefused
      ensures sent.Ok? ==>
        var call := sent.value;
        && Encodable(call)
        && call.Swap? && call.router == router
        && (call.entry == SwapExactTokensForETHSupportingFeeOnTransferTokens <==> supportFees)
        && call.amountIn == amount && call.amountOutMin == amountOutMin
        && call.path == [token, weth] && call.to == wallet
        && call.deadline == nowMs / 1000 + DEADLINE_SECONDS
        && call.gasLimit == Some(GAS_LIMIT_SWAP_TOKEN_ETH)
    {
      var deadline := nowMs / 1000 + DEADLINE_SECONDS;
      var path := [token, weth];
      var call;
      if !supportFees {
        call := Swap(router, SwapExactTokensForETH, amount, amountOutMin, path, wallet,
                     deadline, Some(GAS_LIMIT_SWAP_TOKEN_ETH));
      } else {
        call := Swap(router, SwapExactTokensForETHSupportingFeeOnTransferTokens, amount,
                     amountOutMin, path, wallet, deadline, Some(GAS_LIMIT_SWAP_TOKEN_ETH));
      }
      if !Encodable(call) {
        return Err(AmountRefused);
      }
      sent := Ok(call);
    }

    /** `addLiquidity`: computes both minimums from the slippage factor,
        submits `addLiquidityETH` with the ether attached, and returns the LP
        amount of the first `Transfer` to the wallet among `events`. No
        transaction is submitted when `BigNumber.from` refuses the factor, or
        when ethers refuses a negative amount. */
    method AddLiquidity(token: Address, tokenAmount: int, ethAmount: int, wallet: Address,
                        nowMs: nat, events: seq<TransferEvent>)
      returns (calls: seq<Call>, lp: Result<nat>)
      requires Valid()
      ensures calls != [] <==>
                SlippageFactor(slippage).Some? && 0 <= tokenAmount && 0 <= ethAmount
      ensures SlippageFactor(slippage).None? ==> lp == Err(SlippageFactorInvalid)
      ensures SlippageFactor(slippage).Some? && (tokenAmount < 0 || ethAmount < 0) ==>
                lp == Err(AmountRefused)
      ensures calls != [] ==> |calls| == 1 && lp == AwaitMint(events, wallet)
      ensures calls != [] ==>
        var c := calls[0];
        var f := SlippageFactor(slippage).value;
        && Encodable(c)
        && c.AddLiquidityETH? && c.router == router && c.token == token && c.to == wallet
        && c.amountTokenDesired == tokenAmount && c.value == ethAmount
        && c.amountTokenMin == ApplyBps(tokenAmount, f)
        && c.amountETHMin == ApplyBps(ethAmount, f)
        && 0 <= c.amountTokenMin <= tokenAmount
        && 0 <= c.amountETHMin <= ethAmount
        && (slippage == 0.0 ==> c.amountTokenMin == tokenAmount && c.amountETHMin == ethAmount)
        && (slippage == 1.0 ==> c.amountTokenMin == 0 && c.amountETHMin == 0)
        && c.deadline == nowMs / 1000 + DEADLINE_SECONDS
        && c.gasLimit == Some(GAS_LIMIT_ADD_LIQUIDITY)
    {
      var factor := SlippageFactor(slippage);
      if factor.None? {
        return [], Err(SlippageFactorInvalid);
      }
      var tokenAmountMin := ApplyBps(tokenAmount, factor.value);
      var ethAmountMin := ApplyBps(ethAmount, factor.value);
      // the listener is registered before the transaction is sent
      var tx := AddLiquidityETH(router, token, tokenAmount, tokenAmountMin, ethAmountMin, wallet,
                                nowMs / 1000 + DEADLINE_SECONDS, ethAmount,
                                Some(GAS_LIMIT_ADD_LIQUIDITY));
      if !Encodable(tx) {
        return [], Err(AmountRefused);
      }
      calls := [tx];
      lp := AwaitMint(events, wallet);
    }
  }
}
