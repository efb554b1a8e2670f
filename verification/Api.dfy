/** Request, response and order types of the CLOB, with the 64-bit wrapping
    arithmetic a release build of the program uses. */
module Api {

  const TWO32: int := 0x1_0000_0000
  const TWO64: int := 0x1_0000_0000_0000_0000

  type U64 = x: int | 0 <= x < 0x1_0000_0000_0000_0000

  /** A 20-byte account address read as a number. Only equality and order are used. */
  type Address = nat

  function Add64(a: U64, b: U64): U64 { (a + b) % TWO64 }

  function Sub64(a: U64, b: U64): U64 { (a - b) % TWO64 }

  function Mul64(a: U64, b: U64): U64 { (a * b) % TWO64 }

  datatype Option<+T> = None | Some(value: T)

  datatype Order = Order(isBuy: bool, limitPrice: U64, size: U64, oid: U64, address: Address) {
    function QuoteSize(): U64 { Mul64(size, limitPrice) }
  }

  datatype OrderFill =
    OrderFill(makerOid: U64, takerOid: U64, size: U64, price: U64, buyer: Address, seller: Address)
  {
    function QuoteSize(): U64 { Mul64(size, price) }
  }

  datatype FillStatus =
    FillStatus(oid: U64, size: U64, address: Address, filledSize: U64, fills: seq<OrderFill>)

  /** The wrapping sum that `FillStatus::filled_quote` accumulates. */
  function FilledQuote(fills: seq<OrderFill>): U64 {
    if fills == [] then 0
    else Add64(FilledQuote(fills[..|fills| - 1]), fills[|fills| - 1].QuoteSize())
  }

  method ComputeFilledQuote(status: FillStatus) returns (quote: U64)
    ensures quote == FilledQuote(status.fills)
  {
    quote := 0;
    for i := 0 to |status.fills|
      invariant quote == FilledQuote(status.fills[..i])
    {
      assert status.fills[..i + 1][..i] == status.fills[..i];
      quote := Add64(quote, status.fills[i].QuoteSize());
    }
    assert status.fills[..|status.fills|] == status.fills;
  }

  datatype AssetBalance = AssetBalance(free: U64, locked: U64)

  datatype Request =
    | AddOrder(address: Address, isBuy: bool, limitPrice: U64, size: U64)
    | CancelOrder(oid: U64)
    | Deposit(address: Address, baseFree: U64, quoteFree: U64)
    | Withdraw(address: Address, baseFree: U64, quoteFree: U64)

  datatype Response =
    | OrderAdded(success: bool, status: Option<FillStatus>)
    | OrderCancelled(success: bool, fillStatus: Option<FillStatus>)
    | Deposited(success: bool)
    | Withdrawn(success: bool)

  /** The accounting record each request leaves behind. */
  datatype Diff =
    | WithdrawDiff(user: Address, base: U64, quote: U64)
    | FillDiff(buyer: Address, seller: Address, base: U64, quote: U64)
    | CreateDiff(user: Address, base: U64, quote: U64)
    | CancelDiff(user: Address, base: U64, quote: U64)
    | DepositDiff(user: Address, base: U64, quote: U64)
    | Noop
}
