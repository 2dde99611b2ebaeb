/** The documented usage scenarios of the vector-backed book, derived from its contracts alone. */
module BookVectorScenarios {
  import opened Wrappers
  import opened Orders
  import opened BookVector

  /** A fresh book holding the two given orders, placed in that order. */
  method BookOfTwo(x: Order, y: Order) returns (book: BaseBookVector, placed: bool)
    requires x.amount != 0 && y.amount != 0 && x.id != y.id
    ensures placed
    ensures fresh(book) && book.Valid()
    ensures book.orders == map[x.id := x, y.id := y]
  {
    book := new BaseBookVector();
    var a := book.Place(x);
    var b := book.Place(y);
    placed := a && b;
  }

  /** A fresh book holding the three given orders, placed in that order. */
  method BookOfThree(x: Order, y: Order, z: Order) returns (book: BaseBookVector, placed: bool)
    requires x.amount != 0 && y.amount != 0 && z.amount != 0
    requires x.id != y.id && y.id != z.id && x.id != z.id
    ensures placed
    ensures fresh(book) && book.Valid()
    ensures book.orders == map[x.id := x, y.id := y, z.id := z]
  {
    var ab;
    book, ab := BookOfTwo(x, y);
    var c := book.Place(z);
    placed := ab && c;
  }

  /** In a book holding exactly x and y, modify y to value: the store then holds x and value. */
  method ModifyInTwo(book: BaseBookVector, x: Order, y: Order, value: Order) returns (modified: bool)
    requires book.Valid() && book.orders == map[x.id := x, y.id := y]
    requires x.id != y.id && value.id == y.id && value.amount != 0
    modifies book
    ensures modified
    ensures book.Valid() && book.orders == map[x.id := x, y.id := value]
  {
    modified := book.Modify(value);
  }

  /** Place two more orders with fresh ids into a book: the store gains exactly those two. */
  method PlaceTwo(book: BaseBookVector, x: Order, y: Order) returns (placed: bool)
    requires book.Valid() && x.amount != 0 && y.amount != 0
    requires x.id != y.id && x.id !in book.orders && y.id !in book.orders
    modifies book
    ensures placed
    ensures book.Valid() && book.orders == old(book.orders)[x.id := x][y.id := y]
  {
    var a := book.Place(x);
    var b := book.Place(y);
    placed := a && b;
  }

  /** A fresh book holding x and y, after which x is cancelled. */
  method BookOfTwoCancelled(x: Order, y: Order) returns (book: BaseBookVector, cancelled: bool)
    requires x.amount != 0 && y.amount != 0 && x.id != y.id
    ensures cancelled
    ensures fresh(book) && book.Valid()
    ensures book.orders == map[y.id := y]
  {
    var placed;
    book, placed := BookOfTwo(x, y);
    cancelled := book.Cancel(x.id);
  }

  /** In a book of two orders, an order strictly ahead of the other (or alone on its side) is the best. */
  lemma BestOfTwo(orders: map<nat, Order>, o: Order, x: Order, y: Order, bid: bool)
    requires orders.Keys == {x.id, y.id} && x.id in orders && orders[x.id] == x && y.id in orders && orders[y.id] == y
    requires IsBest(orders, o, bid) && IsBid(x.amount) == bid
    requires IsBid(y.amount) == bid ==> Ahead(x.price, y.price, bid)
    ensures o == x
  {
    BestIsStrictlyAhead(orders, o, x.id, bid);
  }

  /** In a book of three orders, an order strictly ahead of the others on its side is the best. */
  lemma BestOfThree(orders: map<nat, Order>, o: Order, x: Order, y: Order, z: Order, bid: bool)
    requires orders.Keys == {x.id, y.id, z.id}
    requires x.id in orders && orders[x.id] == x && y.id in orders && orders[y.id] == y
    requires z.id in orders && orders[z.id] == z
    requires IsBest(orders, o, bid) && IsBid(z.amount) == bid
    requires IsBid(x.amount) == bid ==> Ahead(z.price, x.price, bid)
    requires IsBid(y.amount) == bid ==> Ahead(z.price, y.price, bid)
    ensures o == z
  {
    BestIsStrictlyAhead(orders, o, z.id, bid);
  }

  /** Place one bid: it is the best bid and there is no best ask. */
  method PlaceAndBestBid() returns (placed: bool, bestBid: Option<Order>, bestAsk: Option<Order>)
    ensures placed
    ensures bestBid == Some(Order(1, 100, 5))
    ensures bestAsk == None
  {
    var book := new BaseBookVector();
    placed := book.Place(Order(1, 100, 5));
    assert book.orders[1].amount > 0;
    bestBid := book.BestBid();
    bestAsk := book.BestAsk();
  }

  /** The best bid is the highest-priced bid. */
  method BestBidIsHighest() returns (bestBid: Option<Order>)
    ensures bestBid == Some(Order(3, 101, 1))
  {
    var book, placed := BookOfThree(Order(1, 100, 5), Order(2, 99, 7), Order(3, 101, 1));
    assert book.orders[3].amount > 0;
    bestBid := book.BestBid();
    BestOfThree(book.orders, bestBid.value, Order(1, 100, 5), Order(2, 99, 7), Order(3, 101, 1), true);
  }

  /** With the three bids still stored, two asks at 102 and 98 are added: the best ask is the lowest-priced one. */
  method BestAskIsLowest() returns (placed: bool, bestAsk: Option<Order>)
    ensures placed
    ensures bestAsk == Some(Order(5, 98, -4))
  {
    var book, bids := BookOfThree(Order(1, 100, 5), Order(2, 99, 7), Order(3, 101, 1));
    var asks := PlaceTwo(book, Order(4, 102, -2), Order(5, 98, -4));
    assert book.orders[5].amount < 0;
    bestAsk := book.BestAsk();
    BestIsStrictlyAhead(book.orders, bestAsk.value, 5, false);
    placed := bids && asks;
  }

  /** Place one ask: it is the best ask and there is no best bid. */
  method PlaceAndBestAsk() returns (placed: bool, bestBid: Option<Order>, bestAsk: Option<Order>)
    ensures placed
    ensures bestAsk == Some(Order(2, 101, -3))
    ensures bestBid == None
  {
    var book := new BaseBookVector();
    placed := book.Place(Order(2, 101, -3));
    assert book.orders[2].amount < 0;
    bestBid := book.BestBid();
    bestAsk := book.BestAsk();
  }

  /** Modify moves an order to a better bid price, then across to the ask side. */
  method ModifyMovesOrderBetweenLevels() returns (modified: bool, bestBid: Option<Order>, bestAsk: Option<Order>)
    ensures modified
    ensures bestBid == Some(Order(2, 101, 7))
    ensures bestAsk == Some(Order(2, 90, -6))
  {
    var book, placed := BookOfTwo(Order(1, 100, 5), Order(2, 99, 7));
    var first := ModifyInTwo(book, Order(1, 100, 5), Order(2, 99, 7), Order(2, 101, 7));
    assert book.orders[2].amount > 0;
    bestBid := book.BestBid();
    BestOfTwo(book.orders, bestBid.value, Order(2, 101, 7), Order(1, 100, 5), true);
    var second := ModifyInTwo(book, Order(1, 100, 5), Order(2, 101, 7), Order(2, 90, -6));
    assert book.orders[2].amount < 0;
    bestAsk := book.BestAsk();
    BestOfTwo(book.orders, bestAsk.value, Order(2, 90, -6), Order(1, 100, 5), false);
    modified := first && second;
  }

  /** Cancelling the only bid empties the bid side; cancelling the only ask then empties the ask side. */
  method CancelRemovesOrders() returns (cancelled: bool, bestBid: Option<Order>, bestAsk: Option<Order>)
    ensures cancelled
    ensures bestBid == None
    ensures bestAsk == None
  {
    var book, first := BookOfTwoCancelled(Order(1, 100, 5), Order(2, 101, -3));
    bestBid := book.BestBid();
    var second := book.Cancel(2);
    assert book.orders == map[];
    bestAsk := book.BestAsk();
    cancelled := first && second;
  }
}
