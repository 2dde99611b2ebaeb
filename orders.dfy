/** The order record and the side conventions shared by both order books. */
module Orders {

  /** An active order: caller-chosen id, limit price and signed amount (positive buys, negative sells). */
  datatype Order = Order(id: nat, price: int, amount: int)

  /** A positive amount is a bid; anything else is treated as an ask. */
  predicate IsBid(amount: int) {
    amount > 0
  }

  /** The side an order of this amount belongs to: the bid one for a positive amount, the ask one otherwise. */
  function SideOf<S>(bids: S, asks: S, amount: int): S {
    if IsBid(amount) then bids else asks
  }

  /** Price p ranks strictly ahead of price q on a side: higher for bids, lower for asks. */
  predicate Ahead(p: int, q: int, bid: bool) {
    if bid then p > q else p < q
  }
}
