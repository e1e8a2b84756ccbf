/** The vocabulary of the matching engine: sides, policies, requests, and what a book emits. */
module Trading {

  datatype Side = Buy | Sell
  {
    function Opposite(): Side { if Buy? then Sell else Buy }
  }

  datatype StpPolicy = NoPrevention | CancelNewest | CancelOldest | CancelBoth

  datatype OrderType = Limit | Market | IOC | FOK | PostOnly

  datatype RejectReason =
    | NoReason
    | DuplicateOrderId
    | UnknownOrder
    | InvalidQuantity
    | InvalidPrice
    | CapacityExceeded
    | WouldTrade
    | InsufficientLiquidity
    | ClientMismatch
    | InvalidReplacement
    | TradingHalted
    | PriceBandViolation

  datatype Status = Accepted | PartiallyFilled | Filled | Cancelled | Replaced | Rejected | Expired

  datatype OrderRequest = OrderRequest(
    orderId: nat, clientId: nat, side: Side, kind: OrderType, price: int, quantity: nat, symbol: nat)

  datatype CancelRequest = CancelRequest(orderId: nat, clientId: nat, symbol: nat)

  datatype ReplaceRequest = ReplaceRequest(
    orderId: nat, clientId: nat, newPrice: int, newQuantity: nat, symbol: nat)

  /** What a book hands to its trade handler or to its report handler. */
  datatype Emission =
    | Trade(sequence: nat, maker: nat, taker: nat, price: int, quantity: nat, takerSide: Side, symbol: nat)
    | Report(sequence: nat, orderId: nat, status: Status, remaining: nat, reason: RejectReason, symbol: nat)

  const MARKET_PRICE: int := 0

  function Min(a: nat, b: nat): nat { if a < b then a else b }

  /** Does price `a` rank no later than price `b` among the resting orders of side `s`? */
  predicate AtLeastAsGood(s: Side, a: int, b: int) {
    if s.Buy? then a >= b else a <= b
  }

  /** Would `taker` trade against a resting order at price `p`? */
  predicate Crosses(taker: OrderRequest, p: int) {
    taker.kind.Market? || (if taker.side.Buy? then taker.price >= p else taker.price <= p)
  }
}
