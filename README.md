# AutoCompound, modelled in Dafny

AutoCompound runs one yield-compounding cycle for a liquidity-mining position
on a Uniswap V2 style exchange:

1. claim the farm's pending rewards with `withdraw(pid, 0)`;
2. sell part of the reward token for ether through the router;
3. add the remaining tokens and part of the ether back to the token/WETH pool;
4. approve the farm for the LP tokens and stake them with `deposit(pid, amount)`.

The model covers the client-side decision layer of that cycle:

- the amount arithmetic: `clamp`, the profit-fraction split into
  `SWAP_FRACTION` and `LIQUIDITY_ETHER_FRACTION` over 10000, truncating
  BigNumber scaling, slippage minimums;
- the `Uniswap` helper: reserve reordering, price ratio, the choice of sell
  entry point, the add-liquidity minimums, and the wait for the LP `Transfer`
  event;
- the three versions of the script's `main`: scripts/yummy/yummy.ts,
  scripts/auto-compound/auto-compound.ts and the older auto_compound.ts.

Each `main` becomes a `Run` method. It takes the configuration, the
addresses the DEX reports, and what the run observes on chain (balance
snapshots, clock readings, LP events or LP balance). It returns the
transactions it submits, in order, with their arguments, and how the run
ends: `Staked(lp)`, `NothingToCompound` or `Aborted(reason)`.
Every call in a returned trace is one ethers can encode (`Chain.Encodable`).

Types used throughout:

- BigNumber values are `int`: signed, unbounded, with division truncated
  toward zero (`Amounts.TruncDiv`).
- JavaScript numbers (slippage, profit fraction, prices) are `real`, and
  `Math.floor` is `.Floor`. This is exact arithmetic, an idealisation of
  doubles.

Files, one module each:

| file | module | models |
|---|---|---|
| math_utils.dfy | `MathUtils` | scripts/common/math-utils.ts, and the identical copy of `clamp` in scripts/auto-compound/auto-compound.ts:14-20 |
| chain.dfy | `Chain` | addresses, balances, submitted transactions, `Transfer` events, outcomes |
| amounts.dfy | `Amounts` | fractions, truncating scaling, slippage resolution and factor, the real-valued minimum output |
| uniswap_utils.dfy | `UniswapUtils` | scripts/common/uniswap-utils.ts |
| compound.dfy | `Compound` | the inputs of a run, and the quantities the three scripts share |
| yummy.dfy | `Yummy` | scripts/yummy/yummy.ts |
| auto_compound_script.dfy | `AutoCompound` | scripts/auto-compound/auto-compound.ts |
| legacy_auto_compound.dfy | `LegacyAutoCompound` | auto_compound.ts |
| js_compare.dfy | `JsCompare` | how JavaScript's `<` and `<=` compare two BigNumbers (see Findings) |

Every transaction in a trace is awaited (one confirmation) before the
script reads a balance again, so the waits are not separate entries.

## Notes on the scripts

- The two auto-compound scripts approve and stake the wallet's whole LP
  balance, not the amount just minted.
- Their swaps use a 250000 gas limit; the `Uniswap` helper uses 200000.
- Nothing checks for a missing pair.
- A transaction that is mined and then reverts is not detected: `wait`
  does not inspect the receipt. A call sent without a `gasLimit` (the
  approvals, the deposits, and the withdraw of the two auto-compound
  scripts) first goes through ethers' gas estimation, which throws when the
  call would revert; that refusal is a property of the remote contract and
  is not modelled (see "## Left out").
- The mint wait fails with the error `'timeout'` (`Failure.Timeout`).
- A call whose `uint256` argument or ether `value` is negative is refused
  by ethers before it is sent, and the run stops there
  (`Failure.AmountRefused`). The `Uniswap` helper's `SellToken` and
  `AddLiquidity` model this refusal. Of the `Run` models, only
  `LegacyAutoCompound.Run` reaches it: `Yummy.Run` and `AutoCompound.Run`
  use the numeric guards.
  With the guards as written, yummy.ts and auto-compound.ts reach it too
  (see "## Findings").

## Model

| member | source | states |
|---|---|---|
| Chain.Encodable | auto_compound.ts:244-258 | ethers encodes a call only when every `uint256` argument and the ether `value` are non-negative; these are the calls where auto_compound.ts can pass a negative one (a definition, no contract) |
| MathUtils.Clamp | scripts/common/math-utils.ts:2-8 | when `lo <= hi` the result lies in [lo, hi]; a value already in range comes back unchanged; a value below or above comes back as `lo` or `hi`; when `lo > hi` the outer `max` wins and the result is `lo` |
| MathUtils.ClampIdempotent | scripts/common/math-utils.ts:7 | clamping a clamped value changes nothing |
| MathUtils.ClampMonotone | scripts/common/math-utils.ts:7 | `a <= b` implies `clamp(a) <= clamp(b)` |
| Amounts.TruncDiv | auto_compound.ts:174 | BigNumber `div` truncates toward zero: for a non-negative dividend `q*d <= a < q*d + d`; for a negative one, the mirror image with `q <= 0` |
| Amounts.ApplyBps | scripts/yummy/yummy.ts:119 | `x.mul(f).div(10000)` with `0 <= f <= 10000` lies between 0 and `x`, on the side of 0 where `x` is; `f = 10000` keeps `x` and `f = 0` gives 0 |
| Amounts.SwapFraction | scripts/yummy/yummy.ts:56 | for `f0` in [0, 1], `floor(0.5(1+f0)·10000)` lies in [5000, 10000]; `f0 = 0` gives 5000 and `f0 = 1` gives 10000 |
| Amounts.LiquidityEtherFraction | scripts/yummy/yummy.ts:57 | for `f0` in [0, 1], `floor((1-f0)/(1+f0)·10000)` lies in [0, 10000]; `f0 = 0` gives 10000 and `f0 = 1` gives 0 |
| Amounts.SharesBalance | scripts/yummy/yummy.ts:56-57 | the unfloored shares satisfy `liquidityEtherShare · swapShare = 1 − swapShare`: the ether put back is worth what is left of the tokens at the sale price |
| Amounts.ResolveSlippage | scripts/yummy/yummy.ts:40-50 | the tolerance lies in [0, 1]; it is the clamped global value unless the pool has its own, which then wins, clamped |
| Amounts.ProfitFraction | scripts/yummy/yummy.ts:52-55 | `f0` lies in [0, 1]; it is 0 when the pool has no `profitFraction` and that value, clamped, when it has one |
| Amounts.SlippageFactor | scripts/common/uniswap-utils.ts:150 | `BigNumber.from((1-s)·10000)` succeeds exactly when that product is an integer, and then equals it; for `s` in [0, 1] it lies in [0, 10000]; `s = 0` gives 10000 and `s = 1` gives 0 |
| Amounts.IdealMinOut | scripts/common/uniswap-utils.ts:107-109 | the real-valued minimum `amount·price·(1−s)` lies between 0 and `amount·price`; no tolerance gives the full value and full tolerance gives 0. auto_compound.ts:193 uses the same formula with the fixed tolerance 0.3, i.e. 70% of the value |
| Amounts.IdealMinOutExamples | auto_compound.ts:193 | 500 tokens at 0.01 with a 30% tolerance ask for 3.5; 100 tokens at 2.0 with none ask for 200 |
| UniswapUtils.GetReserves | scripts/common/uniswap-utils.ts:74-86 | the raw `[r0, r1]` when `token0 == tokenA`, `[r1, r0]` otherwise; always a permutation of the raw reserves |
| UniswapUtils.GetReservesBelongToTokens | scripts/common/uniswap-utils.ts:80-85 | for the two distinct tokens of the pair, whatever `token0` is, the result is (reserve of tokenA, reserve of tokenB) |
| UniswapUtils.GetTokenPrice | scripts/common/uniswap-utils.ts:88-94 | the price times tokenA's reordered reserve is tokenB's reordered reserve; there is no price exactly when tokenA's reserve is empty |
| UniswapUtils.PricesInverse | scripts/common/uniswap-utils.ts:92-93 | with both reserves positive, the two tokens' prices in each other multiply to 1 |
| UniswapUtils.SwapEntryFor | scripts/common/uniswap-utils.ts:113-138 | the fee-on-transfer entry point is chosen exactly when `supportFees` holds |
| UniswapUtils.IsMintTo | scripts/common/uniswap-utils.ts:162-167 | the listener's test: the `Transfer` pays the wallet and arrives before the 20000 ms timer rejects (a definition, no contract) |
| UniswapUtils.AwaitMint | scripts/common/uniswap-utils.ts:160-168 | the result is the value of the first event to the wallet that arrives within 20000 ms; with no such event it is a timeout |
| UniswapUtils.AwaitMintIgnoresOthers | scripts/common/uniswap-utils.ts:161-165 | events to other recipients, or arriving after the timer, placed in front of the stream do not change the result (the stream is not required to be sorted by arrival time) |
| UniswapUtils.Uniswap.constructor | scripts/common/uniswap-utils.ts:28-46 | stores the router, the factory and WETH the router reports; the slippage starts at 0.01 |
| UniswapUtils.Uniswap.SetSlippage | scripts/common/uniswap-utils.ts:48-51 | the stored slippage is the argument clamped to [0, 1]; nothing else changes |
| UniswapUtils.Uniswap.SellToken | scripts/common/uniswap-utils.ts:96-139 | the swap is sent exactly when `amount` and `amountOutMin` are non-negative, else refused (`AmountRefused`); when sent, one encodable swap call: the fee-on-transfer entry iff `supportFees`, on path [token, WETH], to the wallet, deadline now+100 s, gas 200000 |
| UniswapUtils.Uniswap.AddLiquidity | scripts/common/uniswap-utils.ts:141-189 | a call is sent exactly when the slippage factor is accepted and both amounts are non-negative; a refused factor gives `SlippageFactorInvalid`, an accepted factor with a negative amount gives `AmountRefused`, and nothing is sent in either case. When sent, one encodable `addLiquidityETH` carrying `value = ethAmount`, the desired token amount and both minimums `amount·factor/10000` (each between 0 and its desired amount; equal to it at slippage 0, zero at slippage 1), deadline now+100 s, gas 250000; the result is the first in-time Transfer to the wallet |
| Compound.TokensToSwap | scripts/yummy/yummy.ts:119 | `afterClaimTokenBalance·SWAP_FRACTION/10000` lies between half the balance (up to truncation) and all of it; exactly half when `f0 = 0`, all of it when `f0 = 1` (auto-compound.ts:199 computes the same) |
| Compound.EthReceived | scripts/yummy/yummy.ts:141 | the ether the swap added, non-negative exactly when the swap guard passes (auto-compound.ts:267 computes the same) |
| Compound.SwapKeptEther | scripts/yummy/yummy.ts:136 | the swap guard read numerically: the ether balance after the sale is not below the one after the claim, i.e. 'Swap failed' is not thrown (auto-compound.ts:262 is the same guard; a definition, no contract) |
| Compound.GoesOnToCompound | scripts/yummy/yummy.ts:136-158 | the run gets past both numeric guards: the swap kept the ether and more than EPSILON tokens remain (auto-compound.ts:262-282 the same; a definition, no contract) |
| Yummy.Run | scripts/yummy/yummy.ts:32-197 | calls in the order withdraw(pid, 0), approve, sell, addLiquidity, LP approve, deposit. The approval covers the whole after-claim balance, which is at least `tokensToSwap`. 'Swap failed' happens exactly when ether fell, and the run returns early exactly when the remaining tokens are dust; three calls in both cases. On the compounding path `ethLiquidityAmount ≤ ethReceived` and `tokLiquidityAmount = balance − EPSILON > 0`. LP approve and `deposit(uint256,uint256)` both use exactly the minted amount. Every call sent is encodable |
| AutoCompound.EtherAndTokenReserves | scripts/auto-compound/auto-compound.ts:202-212 | the ether reserve is `reserves[0]` iff `token0` is WETH, the token reserve is the other one |
| AutoCompound.EtherAndTokenReservesAgree | scripts/auto-compound/auto-compound.ts:202-217 | the inline ordering is `getReserves(WETH, token)`, and ether reserve over token reserve is `getTokenPrice(token, WETH)` |
| AutoCompound.Run | scripts/auto-compound/auto-compound.ts:109-331 | the same order, guards and swap amount as yummy.ts, with the fee-on-transfer entry iff `hasFees` and gas 250000. The minimums are `amount·SLIPPAGE_FACTOR/10000` with `value = ethLiquidityAmount`. The whole LP balance is approved and deposited. Every call sent is encodable |
| LegacyAutoCompound.TokensToSwap | auto_compound.ts:161-174 | half of the claimed delta (not of the balance), truncated toward zero, also when the delta is negative |
| LegacyAutoCompound.Run | auto_compound.ts:101-272 | calls in the order withdraw, sell (no approval before it), approve for exactly `tokLiquidityAmount`, addLiquidity, LP approve, deposit; every call sent is encodable. A negative `tokensToSwap` stops the run at the sale (one call), a `tokLiquidityAmount = tokensToSwap − EPSILON` below 0 at the approval (two), a negative raw ether difference at the liquidity add (three); so any claim under 2·EPSILON ends `Aborted(AmountRefused)` within two calls. Otherwise six calls, 90% minimums (truncated) with a now+600 s deadline, and the whole LP balance staked |
| JsCompare.DecimalString | scripts/yummy/yummy.ts:136 | `BigNumber.toString()` of a non-negative value: at least one character, all decimal digits, one exactly below 10, no leading zero for a positive value |
| JsCompare.StringLess | scripts/yummy/yummy.ts:136 | JavaScript's `<` on strings without astral characters (here, digit strings): irreflexive, and a proper prefix is smaller |
| JsCompare.StringLessTotal | scripts/yummy/yummy.ts:136 | string `<` is a strict total order: of two different strings exactly one is smaller |
| JsCompare.BigNumberLessAsWritten | scripts/yummy/yummy.ts:136 | `x < y` on two BigNumbers as the guard writes it: the string order of their decimal strings, irreflexive and asymmetric |
| JsCompare.BigNumberLessEqAsWritten | scripts/yummy/yummy.ts:146 | `x <= y` as the dust check writes it, `!(y < x)` on the strings: the as-written `<` or equality |
| JsCompare.DecimalStringInjective | scripts/yummy/yummy.ts:146 | different numbers have different decimal strings |
| JsCompare.LeadingDigitDecides | scripts/yummy/yummy.ts:136 | as written, the number whose decimal string starts with the smaller digit is the smaller one, whatever the two lengths |
| JsCompare.ScaledCompareAsWritten | scripts/yummy/yummy.ts:136 | as written, `d1·10^k1 < d2·10^k2` holds for leading digits `d1 < d2` and the reverse does not, for any exponents |
| JsCompare.SwapGuardAsWrittenMisorders | scripts/yummy/yummy.ts:136 | for the balances 9·10^17 and 10^18 wei, as written `10^18 < 9·10^17` holds and `9·10^17 < 10^18` does not |
| JsCompare.SkipGuardAsWrittenMissesDust | scripts/yummy/yummy.ts:146 | a remaining balance of 5·10^13 wei is at most EPSILON, yet as written `balance <= EPSILON` is false |
| JsCompare.SameLengthCompareAgrees | scripts/auto-compound/auto-compound.ts:262 | whenever the two numbers have the same count of digits, the as-written comparison is the numeric one and equal strings mean equal numbers (numbers of different lengths may or may not compare numerically) |

## Left out

- Network and wallet setup, the chain-id check, loading config and secrets, choosing the pool: configuration arrives already resolved in `Config`/`PoolConfig`.
- Fetching and caching ABIs (scripts/common/contract-utils.ts, scripts/auto-compound/auto-compound.ts:36-107, auto_compound.ts:28-99), including the 'Contract source code not verified' error: HTTPS, JSON and file I/O.
- `wait`/`waitForTransaction`: every submitted transaction is taken as confirmed before the next step. The receipt is never inspected, so a transaction that is mined and then reverts does not stop a run.
- ethers' gas estimation for the calls sent without a `gasLimit` (scripts/yummy/yummy.ts:122, :179, :183; scripts/auto-compound/auto-compound.ts:180, :228, :313, :317; auto_compound.ts:156, :244, :266, :270): it throws "cannot estimate gas" when the call would revert, which stops the run before that call is sent. Whether a call reverts depends on the remote contracts, which are not modelled, so the model has no outcome for it.
- Logging: `printBalance`, `printPoolInfo`, `getPairSymbol`, console output.
- The remote contracts: balances, the LP balance and the `Transfer` events are observations, not derived from any AMM or farm behaviour.
- The `Ready` promise of the `Uniswap` constructor: the addresses the router reports are constructor arguments. `sellToken` queries `router.WETH()` again; the model uses the stored WETH.
- The event subscription and the timer: modelled as a finite sequence of events, in the order they are delivered, each with its arrival time. The model does not require those times to be non-decreasing, so it also covers delivery orders that cannot occur. The listener that is never removed is not modelled.
- `getPair` returning the zero address: the pair is an input, and the code does not check it either.
- NaN and infinities: reals have none. A non-numeric configuration value that would make `clamp` return NaN is not modelled.
- ethers' refusal to encode a `uint256` at or above 2^256: balances are taken to be below it.
- UniswapUtils.Uniswap.SellToken: `amountOutMin` is an input, not computed from the float price `parseEther((amount·price·(1−s)).toString())`. `Amounts.IdealMinOut` states the real-valued formula only. The float computation can throw (`parseEther` refuses exponent notation and more than 18 decimals), which stops the run before the swap is sent; not modelled: the swap is refused only for a negative `amount` or `amountOutMin`.
- AutoCompound.Run: `amountOutMin` from the float path at scripts/auto-compound/auto-compound.ts:214-218 is an input. The float computation can throw (`parseEther` refuses exponent notation and more than 18 decimals), which stops the run after the withdraw, before the approval and the sale; not modelled, the swap is always sent. The reserve ordering feeding it is modelled by `AutoCompound.EtherAndTokenReserves`.
- LegacyAutoCompound.Run: `amountOutMin` from auto_compound.ts:189-193 is an input (its fixed 0.3 tolerance is on the `Amounts.IdealMinOut` row). The float computation can throw (`parseEther` refuses exponent notation and more than 18 decimals), which stops the run after the withdraw, before the sale; not modelled, only a negative `tokensToSwap` stops it there. Its reserve ordering, auto_compound.ts:178-187, is the same function as `AutoCompound.EtherAndTokenReserves`.
- UniswapUtils.GetTokenPrice: an exact ratio of the reserves; `formatEther`/`parseFloat` rounding is not modelled. JavaScript's `Infinity`/`NaN` for an empty reserve becomes `None`.
- Amounts.SwapFraction: computed on exact reals. A double product that lands just below an integer could floor one lower in JavaScript.
- Amounts.LiquidityEtherFraction: computed on exact reals, as for `SwapFraction`.
- Amounts.SlippageFactor: integrality is decided on exact reals. JavaScript may accept or refuse a different set of tolerances, because `(1−s)·10000` on doubles can miss an integer.

## Findings

The guards compare BigNumber objects with JavaScript's `<` and `<=`. A
BigNumber has no `valueOf`, so both operands become decimal strings, which
are compared character by character. The comment at
scripts/yummy/yummy.ts:145 shows the comparison is meant to be numeric.
`JsCompare` models the comparison as written. `Yummy.Run` and
`AutoCompound.Run` use the numeric comparison and prove the intended
properties of it: 'Swap failed' happens exactly when ether fell, and the
early return happens exactly when the balance is at most EPSILON.
`JsCompare.SameLengthCompareAgrees` shows the two agree whenever both
balances have the same number of digits.

| source | as written | input that shows it | evidently intended | confidence | as-written member | corrected member |
|---|---|---|---|---|---|---|
| scripts/yummy/yummy.ts:136 | `afterSwapEtherBalance < afterClaimEtherBalance` on decimal strings | after claim 9·10^17 wei, after swap 10^18: "1000…" < "900…", so 'Swap failed' is thrown although ether rose; 10^18 → 9·10^17 is not caught | numeric `<` | high (not executed) | JsCompare.SwapGuardAsWrittenMisorders | Yummy.Run |
| scripts/yummy/yummy.ts:146 | `afterSwapTokenBalance <= EPSILON` on decimal strings | 5·10^13 wei left: "100000000000000" < "50000000000000", so the run does not stop and goes on with `tokLiquidityAmount` = −5·10^13, which ethers refuses to encode | numeric `<=` | high (not executed) | JsCompare.SkipGuardAsWrittenMissesDust | Yummy.Run |
| scripts/auto-compound/auto-compound.ts:262 | the same ether guard on decimal strings | as for scripts/yummy/yummy.ts:136 | numeric `<` | high (not executed) | JsCompare.SwapGuardAsWrittenMisorders | AutoCompound.Run |
| scripts/auto-compound/auto-compound.ts:279 | the same dust check on decimal strings | as for scripts/yummy/yummy.ts:146 | numeric `<=` | high (not executed) | JsCompare.SkipGuardAsWrittenMissesDust | AutoCompound.Run |
