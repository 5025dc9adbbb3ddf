/** The vocabulary shared by the compounding scripts: addresses, balance
    snapshots, the transactions they submit to remote contracts, the
    events they observe and the way a run ends. The remote contracts
    themselves (router, factory, pair, farm, token) are not modelled: a
    run is described by the transactions it submits, in order. */
module Chain {

  datatype Option<T> = None | Some(value: T)

  /** A checksummed hexadecimal address, compared as a string. */
  type Address = string

  /** One read of the wallet's two relevant balances, in wei. */
  datatype Balances = Balances(ether: nat, token: nat)

  /** The two router entry points that sell a token for ether. */
  datatype SwapEntry =
    | SwapExactTokensForETH
    | SwapExactTokensForETHSupportingFeeOnTransferTokens

  /** A transaction the wallet submits. Each one is awaited (one
      confirmation) before the script reads any balance again. Amounts are
      BigNumbers, hence `int`; `gasLimit` is `None` when the script lets
      ethers estimate it. */
  datatype Call =
    | Withdraw(farm: Address, pid: nat, amount: int, gasLimit: Option<nat>)
    | Approve(token: Address, spender: Address, amount: int)
    | Swap(router: Address, entry: SwapEntry, amountIn: int, amountOutMin: int,
           path: seq<Address>, to: Address, deadline: int, gasLimit: Option<nat>)
    | AddLiquidityETH(router: Address, token: Address, amountTokenDesired: int,
                      amountTokenMin: int, amountETHMin: int, to: Address,
                      deadline: int, value: int, gasLimit: Option<nat>)
    | Deposit(farm: Address, pid: nat, amount: int)

  /** ethers encodes a call only when every `uint256` argument, and the
      ether `value`, is non-negative; otherwise the contract method throws
      before anything is sent. */
  predicate Encodable(c: Call)
  {
    match c
    case Withdraw(_, _, amount, _) => 0 <= amount
    case Approve(_, _, amount) => 0 <= amount
    case Swap(_, _, amountIn, amountOutMin, _, _, deadline, _) =>
      0 <= amountIn && 0 <= amountOutMin && 0 <= deadline
    case AddLiquidityETH(_, _, desired, tokenMin, ethMin, _, deadline, value, _) =>
      0 <= desired && 0 <= tokenMin && 0 <= ethMin && 0 <= deadline && 0 <= value
    case Deposit(_, _, amount) => 0 <= amount
  }

  /** A `Transfer(from, to, value)` event of the LP pair, with the time it
      arrived, in milliseconds after the listener was registered. */
  datatype TransferEvent = TransferEvent(from: Address, to: Address, value: nat, atMs: nat)

  /** The ways a run stops early. */
  datatype Failure =
    | SwapFailed              // `throw new Error('Swap failed')`
    | SlippageFactorInvalid   // `BigNumber.from` refuses a non-integral `(1 - s) * 10000`
    | Timeout                 // no LP `Transfer` to the wallet within 20 s
    | AmountRefused           // ethers refuses to encode a negative `uint256`

  datatype Result<T> = Ok(value: T) | Err(failure: Failure)

  /** How one compounding run ends. */
  datatype Outcome =
    | Staked(lpAmount: int)    // all steps done, `lpAmount` LP deposited
    | NothingToCompound        // early `return` after the swap
    | Aborted(failure: Failure)
}
