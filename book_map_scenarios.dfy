/** The documented usage scenarios of the map-backed book, and the effect of two orders sharing a price. */
module BookMapScenarios {
  import opened Wrappers
  import opened Orders
  import opened BookMap

  /** Place one bid: it is the best bid and there is no best ask. */
  method PlaceAndBestBid() returns (placed: bool, bestBid: Option<Order>, bestAsk: Option<Order>)
    ensures placed
    ensures bestBid == Some(Order(1, 100, 5))
    ensures bestAsk == None
  {
    var book := new BaseBookMap();
    placed := book.Place(Order(1, 100, 5));
    bestBid := book.BestBid();
    bestAsk := book.BestAsk();
  }

  /** Place one ask: it is the best ask and there is no best bid. */
  method PlaceAndBestAsk() returns (placed: bool, bestBid: Option<Order>, bestAsk: Option<Order>)
    ensures placed
    ensures bestAsk == Some(Order(2, 101, -3))
    ensures bestBid == None
  {
    var book := new BaseBookMap();
    placed := book.Place(Order(2, 101, -3));
    bestBid := book.BestBid();
    bestAsk := book.BestAsk();
  }

  /** A fresh book holding the bids of the ordering test: 100, 99 and 101 under ids 1, 2 and 3. */
  method ThreeBids() returns (book: BaseBookMap, placed: bool)
    ensures placed
    ensures fresh(book) && book.Valid()
    ensures book.orders == map[1 := Order(1, 100, 5), 2 := Order(2, 99, 7), 3 := Order(3, 101, 1)]
    ensures book.asks == map[]
    ensures book.bids == map[100 := 1, 99 := 2, 101 := 3]
  {
    book := new BaseBookMap();
    var a := book.Place(Order(1, 100, 5));
    var b := book.Place(Order(2, 99, 7));
    var c := book.Place(Order(3, 101, 1));
    placed := a && b && c;
  }

  /** The best bid is the highest-priced bid. */
  method BestBidIsHighest() returns (placed: bool, bestBid: Option<Order>)
    ensures placed
    ensures bestBid == Some(Order(3, 101, 1))
  {
    var book;
    book, placed := ThreeBids();
    bestBid := book.BestBid();
    assert 101 in book.bids && bestBid.value.price == 101;
  }

  /** With the three bids still stored, two asks at 102 and 98 are added: the best ask is the lowest-priced one. */
  method BestAskIsLowest() returns (placed: bool, bestAsk: Option<Order>)
    ensures placed
    ensures bestAsk == Some(Order(5, 98, -4))
  {
    var book, bids := ThreeBids();
    var d := book.Place(Order(4, 102, -2));
    var e := book.Place(Order(5, 98, -4));
    assert book.asks == map[102 := 4, 98 := 5];
    bestAsk := book.BestAsk();
    placed := bids && d && e;
  }

  /** Modify moves an order to a better bid price, then across to the ask side. */
  method ModifyMovesOrderBetweenLevels() returns (modified: bool, bestBid: Option<Order>, bestAsk: Option<Order>)
    ensures modified
    ensures bestBid == Some(Order(2, 101, 7))
    ensures bestAsk == Some(Order(2, 90, -6))
  {
    var book := new BaseBookMap();
    var a := book.Place(Order(1, 100, 5));
    var b := book.Place(Order(2, 99, 7));
    var c := book.Modify(Order(2, 101, 7));
    assert book.bids == map[100 := 1, 101 := 2];
    bestBid := book.BestBid();
    var d := book.Modify(Order(2, 90, -6));
    assert book.asks == map[90 := 2];
    bestAsk := book.BestAsk();
    modified := a && b && c && d;
  }

  /** Cancelling the only bid and then the only ask leaves both sides empty. */
  method CancelRemovesOrders() returns (cancelled: bool, bestBid: Option<Order>, bestAsk: Option<Order>)
    ensures cancelled
    ensures bestBid == None
    ensures bestAsk == None
  {
    var book := new BaseBookMap();
    var a := book.Place(Order(1, 100, 5));
    var b := book.Place(Order(2, 101, -3));
    var c := book.Cancel(1);
    bestBid := book.BestBid();
    var d := book.Cancel(2);
    bestAsk := book.BestAsk();
    cancelled := a && b && c && d;
  }

  /**
   * Two bids at one price: both places succeed, but only the first is indexed. Once the first is
   * cancelled the bid side is empty although the second is still stored, and the second can no
   * longer be cancelled.
   */
  method SharedPriceLeavesOrderUnindexed() returns (placed: bool, bestBid: Option<Order>, cancelled: bool,
                                                    secondStored: bool, stuck: bool)
    ensures placed && cancelled
    ensures bestBid == None && secondStored
    ensures !stuck
  {
    var book := new BaseBookMap();
    var a := book.Place(Order(1, 100, 5));
    var b := book.Place(Order(2, 100, 3));
    assert book.bids == map[100 := 1];
    placed := a && b;
    cancelled := book.Cancel(1);
    secondStored := 2 in book.orders;
    bestBid := book.BestBid();
    stuck := book.Cancel(2);
  }
}
