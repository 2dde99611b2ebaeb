/**
 * The map-backed order book: an id → order store plus, per side, an ordered map from price to ONE id.
 * The bid map is ordered by descending price and the ask map by ascending price, so the first key of
 * either is its best price. Inserting at a price already present leaves the map as it was, so an order
 * placed at an occupied price is stored but not indexed.
 */
module BookMap {
  import opened Wrappers
  import opened Orders

  /** Insert-if-absent on one side's price index: an occupied price keeps its existing id. */
  function Emplace(book: map<int, nat>, price: int, id: nat): (r: map<int, nat>)
    ensures r.Keys == book.Keys + {price}
    ensures forall q :: q in book ==> r[q] == book[q]
    ensures price !in book ==> r[price] == id
  {
    if price in book then book else book[price := id]
  }

  /** Both side indexes after adding o's entry to its own side. */
  function Emplaced(bids: map<int, nat>, asks: map<int, nat>, o: Order): (r: (map<int, nat>, map<int, nat>))
    ensures SideOf(r.0, r.1, o.amount) == Emplace(SideOf(bids, asks, o.amount), o.price, o.id)
    ensures SideOf(r.0, r.1, -o.amount) == SideOf(bids, asks, -o.amount) || o.amount == 0
  {
    if IsBid(o.amount) then (Emplace(bids, o.price, o.id), asks) else (bids, Emplace(asks, o.price, o.id))
  }

  /** Both side indexes after erasing the entry at o's price from o's own side. */
  function Erased(bids: map<int, nat>, asks: map<int, nat>, o: Order): (r: (map<int, nat>, map<int, nat>))
    ensures o.price !in SideOf(r.0, r.1, o.amount)
    ensures SideOf(r.0, r.1, o.amount).Keys == SideOf(bids, asks, o.amount).Keys - {o.price}
    ensures forall q :: q in SideOf(r.0, r.1, o.amount) ==> SideOf(r.0, r.1, o.amount)[q] == SideOf(bids, asks, o.amount)[q]
    ensures SideOf(r.0, r.1, -o.amount) == SideOf(bids, asks, -o.amount) || o.amount == 0
  {
    if IsBid(o.amount) then (bids - {o.price}, asks) else (bids, asks - {o.price})
  }

  /** The index entry for o is present: o's side maps o's price to o's id. */
  predicate Listed(bids: map<int, nat>, asks: map<int, nat>, o: Order) {
    var side := SideOf(bids, asks, o.amount);
    o.price in side && side[o.price] == o.id
  }

  /** Every stored order is filed under its own id and has a nonzero amount. */
  ghost predicate StoreHolds(orders: map<nat, Order>) {
    forall id :: id in orders ==> orders[id].id == id && orders[id].amount != 0
  }

  /** Every entry price → id of a side names a stored order of that side at that price. */
  ghost predicate IndexHolds(orders: map<nat, Order>, book: map<int, nat>, bid: bool) {
    forall p :: p in book ==> book[p] in orders && orders[book[p]].price == p && IsBid(orders[book[p]].amount) == bid
  }

  /** The invariant of the map-backed book. */
  ghost predicate Indexed(orders: map<nat, Order>, bids: map<int, nat>, asks: map<int, nat>) {
    StoreHolds(orders) && IndexHolds(orders, bids, true) && IndexHolds(orders, asks, false)
  }

  /** k comes before every other price of keys in the side's order. */
  predicate IsFirst(keys: set<int>, k: int, bid: bool) {
    k in keys && forall q :: q in keys && q != k ==> Ahead(k, q, bid)
  }

  /** Adding a price x to a set whose first key is k makes the earlier of k and x the first key. */
  lemma FirstAfterAdding(rest: set<int>, k: int, x: int, bid: bool)
    requires IsFirst(rest, k, bid) && x !in rest
    ensures IsFirst(rest + {x}, if Ahead(k, x, bid) then k else x, bid)
  {
    if !Ahead(k, x, bid) {
      forall q | q in rest + {x} && q != x ensures Ahead(x, q, bid) {
        if q != k {
          assert q in rest;
        }
      }
    }
  }

  /** A non-empty set of prices has a first key in the side's order. */
  lemma {:induction false} HasFirst(keys: set<int>, bid: bool)
    requires keys != {}
    ensures exists k :: IsFirst(keys, k, bid)
  {
    if forall y :: y !in keys {
      assert false;
    }
    var x :| x in keys;
    if keys == {x} {
      assert IsFirst(keys, x, bid);
    } else {
      var rest := keys - {x};
      HasFirst(rest, bid);
      var k :| IsFirst(rest, k, bid);
      FirstAfterAdding(rest, k, x, bid);
      assert rest + {x} == keys;
    }
  }

  /** The first key of a side's map: the highest price for bids, the lowest for asks. */
  function FirstKey(keys: set<int>, bid: bool): (k: int)
    requires keys != {}
    ensures k in keys
    ensures forall q :: q in keys && q != k ==> Ahead(k, q, bid)
  {
    HasFirst(keys, bid);
    var k :| IsFirst(keys, k, bid);
    k
  }

  /** The stored order named by the first entry of a side, or none when the side is empty or that id is not stored. */
  function BestFromBook(orders: map<nat, Order>, book: map<int, nat>, bid: bool): (r: Option<Order>)
    ensures book == map[] ==> r == None
    ensures r.Some? ==> exists id :: id in orders && orders[id] == r.value
  {
    if book == map[] then None
    else
      var id := book[FirstKey(book.Keys, bid)];
      if id in orders then Some(orders[id]) else None
  }

  /** On an indexed book the best of a side is the stored order of the best indexed price, and exists when the side does. */
  lemma BestFromBookIsTop(orders: map<nat, Order>, book: map<int, nat>, bid: bool)
    requires StoreHolds(orders) && IndexHolds(orders, book, bid)
    ensures var r := BestFromBook(orders, book, bid);
            && (r.None? <==> book == map[])
            && (r.Some? ==> r.value.price in book && book[r.value.price] == r.value.id
                            && r.value.id in orders && orders[r.value.id] == r.value
                            && IsBid(r.value.amount) == bid
                            && forall p :: p in book && p != r.value.price ==> Ahead(r.value.price, p, bid))
  {
    if book != map[] {
      var k := FirstKey(book.Keys, bid);
      assert book[k] in orders;
    }
  }

  /** No id is the target of two entries, on one side or across both. */
  lemma EntriesDistinct(orders: map<nat, Order>, bids: map<int, nat>, asks: map<int, nat>)
    requires Indexed(orders, bids, asks)
    ensures forall p, q :: p in bids && q in bids && p != q ==> bids[p] != bids[q]
    ensures forall p, q :: p in asks && q in asks && p != q ==> asks[p] != asks[q]
    ensures forall p, q :: p in bids && q in asks ==> bids[p] != asks[q]
  {
  }

  /** A fresh order is indexed by the insert exactly when its price was free on its side. */
  lemma ListedIffPriceFree(orders: map<nat, Order>, bids: map<int, nat>, asks: map<int, nat>, value: Order)
    requires Indexed(orders, bids, asks) && value.id !in orders
    ensures var r := Emplaced(bids, asks, value);
            Listed(r.0, r.1, value) <==> value.price !in SideOf(bids, asks, value.amount)
  {
    var side := SideOf(bids, asks, value.amount);
    if value.price in side {
      assert side[value.price] in orders;
    }
  }

  /** Storing a fresh nonzero order and inserting its entry keeps the book indexed. */
  lemma PlaceKeeps(orders: map<nat, Order>, bids: map<int, nat>, asks: map<int, nat>, value: Order)
    requires Indexed(orders, bids, asks) && value.amount != 0 && value.id !in orders
    ensures var r := Emplaced(bids, asks, value); Indexed(orders[value.id := value], r.0, r.1)
  {
    var r := Emplaced(bids, asks, value);
    var stored := orders[value.id := value];
    forall p | p in r.0 ensures r.0[p] in stored && stored[r.0[p]].price == p && IsBid(stored[r.0[p]].amount) {
      if p in bids {
        assert bids[p] in orders;
      }
    }
    forall p | p in r.1 ensures r.1[p] in stored && stored[r.1[p]].price == p && !IsBid(stored[r.1[p]].amount) {
      if p in asks {
        assert asks[p] in orders;
      }
    }
  }

  /** Erasing a listed order's entry and then the order itself keeps the book indexed. */
  lemma CancelKeeps(orders: map<nat, Order>, bids: map<int, nat>, asks: map<int, nat>, id: nat)
    requires Indexed(orders, bids, asks) && id in orders && Listed(bids, asks, orders[id])
    ensures var r := Erased(bids, asks, orders[id]); Indexed(orders - {id}, r.0, r.1)
  {
    EntriesDistinct(orders, bids, asks);
  }

  /** Overwriting an order with a value of the same side and price keeps the book indexed. */
  lemma OverwriteKeeps(orders: map<nat, Order>, bids: map<int, nat>, asks: map<int, nat>, value: Order)
    requires Indexed(orders, bids, asks) && value.id in orders && value.amount != 0
    requires IsBid(orders[value.id].amount) == IsBid(value.amount) && orders[value.id].price == value.price
    ensures Indexed(orders[value.id := value], bids, asks)
  {
  }

  /** Moving a listed order: erase its entry, overwrite it, insert the new entry; the book stays indexed. */
  lemma MoveKeeps(orders: map<nat, Order>, bids: map<int, nat>, asks: map<int, nat>, value: Order)
    requires Indexed(orders, bids, asks) && value.id in orders && value.amount != 0
    requires Listed(bids, asks, orders[value.id])
    ensures var e := Erased(bids, asks, orders[value.id]);
            var r := Emplaced(e.0, e.1, value);
            Indexed(orders[value.id := value], r.0, r.1)
  {
    var previous := orders[value.id];
    var e := Erased(bids, asks, previous);
    CancelKeeps(orders, bids, asks, value.id);
    PlaceKeeps(orders - {value.id}, e.0, e.1, value);
    assert (orders - {value.id})[value.id := value] == orders[value.id := value];
  }

  /** The outcome of cancel(id) on the state (orders, bids, asks), as the new state and the returned flag. */
  ghost predicate CancelOutcome(orders: map<nat, Order>, bids: map<int, nat>, asks: map<int, nat>, id: nat,
                                orders': map<nat, Order>, bids': map<int, nat>, asks': map<int, nat>, ok: bool) {
    && (ok <==> id in orders && Listed(bids, asks, orders[id]))
    && (!ok ==> orders' == orders && bids' == bids && asks' == asks)
    && (ok ==> orders' == orders - {id} && (bids', asks') == Erased(bids, asks, orders[id]))
  }

  class BaseBookMap {
    var orders: map<nat, Order>
    var bids: map<int, nat>
    var asks: map<int, nat>

    ghost predicate Valid()
      reads this
    {
      Indexed(orders, bids, asks)
    }

    /** An empty book. */
    constructor ()
      ensures Valid()
      ensures orders == map[] && bids == map[] && asks == map[]
    {
      orders, bids, asks := map[], map[], map[];
    }

    /** add_to_book: emplace the order's entry on its side; it reports success whether or not the price was free. */
    method AddToBook(value: Order) returns (ok: bool)
      modifies this
      ensures ok
      ensures orders == old(orders)
      ensures (bids, asks) == Emplaced(old(bids), old(asks), value)
    {
      if IsBid(value.amount) {
        bids := Emplace(bids, value.price, value.id);
        return true;
      }
      asks := Emplace(asks, value.price, value.id);
      return true;
    }

    /** remove_from_book: erase the entry at the order's price on its side when that entry names the order's id. */
    method RemoveFromBook(value: Order) returns (ok: bool)
      modifies this
      ensures ok <==> Listed(old(bids), old(asks), value)
      ensures orders == old(orders)
      ensures !ok ==> bids == old(bids) && asks == old(asks)
      ensures ok ==> (bids, asks) == Erased(old(bids), old(asks), value)
    {
      if IsBid(value.amount) {
        if value.price in bids && bids[value.price] == value.id {
          bids := bids - {value.price};
          return true;
        }
        return false;
      }
      if value.price in asks && asks[value.price] == value.id {
        asks := asks - {value.price};
        return true;
      }
      return false;
    }

    /** place: refuse a zero amount or a stored id; otherwise store the order and add its entry. */
    method Place(value: Order) returns (ok: bool)
      requires Valid()
      modifies this
      ensures Valid()
      ensures ok <==> value.amount != 0 && value.id !in old(orders)
      ensures !ok ==> orders == old(orders) && bids == old(bids) && asks == old(asks)
      ensures ok ==> orders == old(orders)[value.id := value]
      ensures ok ==> (bids, asks) == Emplaced(old(bids), old(asks), value)
    {
      if value.amount == 0 || value.id in orders {
        return false;
      }
      PlaceKeeps(orders, bids, asks, value);
      orders := orders[value.id := value];
      var added := AddToBook(value);
      if !added {
        // The rollback (erase the stored order, return false) is dead: add_to_book always succeeds.
        assert false;
      }
      return true;
    }

    /** cancel: refuse an unknown id or an order without its entry; otherwise erase the entry, then the order. */
    method Cancel(id: nat) returns (ok: bool)
      requires Valid()
      modifies this
      ensures Valid()
      ensures CancelOutcome(old(orders), old(bids), old(asks), id, orders, bids, asks, ok)
    {
      if id !in orders {
        return false;
      }
      var value := orders[id];
      ghost var before := (orders, bids, asks);
      var removed := RemoveFromBook(value);
      if !removed {
        return false;
      }
      CancelKeeps(before.0, before.1, before.2, id);
      orders := orders - {id};
      return true;
    }

    /**
     * modify: a zero amount cancels; an unknown id is refused; the same side and price overwrites only the
     * stored order; otherwise the old entry is erased, the order overwritten and the new entry added.
     */
    method Modify(value: Order) returns (ok: bool)
      requires Valid()
      modifies this
      ensures Valid()
      ensures value.amount == 0 ==> CancelOutcome(old(orders), old(bids), old(asks), value.id, orders, bids, asks, ok)
      ensures value.amount != 0 && value.id !in old(orders) ==>
        !ok && orders == old(orders) && bids == old(bids) && asks == old(asks)
      ensures value.amount != 0 && value.id in old(orders) ==>
        var previous := old(orders)[value.id];
        if IsBid(previous.amount) == IsBid(value.amount) && previous.price == value.price then
          ok && orders == old(orders)[value.id := value] && bids == old(bids) && asks == old(asks)
        else
          && (ok <==> Listed(old(bids), old(asks), previous))
          && (!ok ==> orders == old(orders) && bids == old(bids) && asks == old(asks))
          && (ok ==> orders == old(orders)[value.id := value]
                     && var e := Erased(old(bids), old(asks), previous);
                        (bids, asks) == Emplaced(e.0, e.1, value))
    {
      if value.amount == 0 {
        ok := Cancel(value.id);
        return;
      }
      if value.id !in orders {
        return false;
      }
      var previous := orders[value.id];
      if IsBid(previous.amount) == IsBid(value.amount) && previous.price == value.price {
        OverwriteKeeps(orders, bids, asks, value);
        orders := orders[value.id := value];
        return true;
      }
      ghost var before := (orders, bids, asks);
      var removed := RemoveFromBook(previous);
      if !removed {
        return false;
      }
      MoveKeeps(before.0, before.1, before.2, value);
      orders := orders[value.id := value];
      var added := AddToBook(value);
      if !added {
        // The rollback (restore previous and its entry, return false) is dead: add_to_book always succeeds.
        assert false;
      }
      return true;
    }

    /** best_bid: the stored order of the highest bid price, or none. */
    function BestBid(): (r: Option<Order>)
      reads this
      requires Valid()
      ensures r.None? <==> bids == map[]
      ensures r.Some? ==> Listed(bids, asks, r.value) && r.value.id in orders && orders[r.value.id] == r.value
      ensures r.Some? ==> IsBid(r.value.amount) && forall p :: p in bids ==> p <= r.value.price
    {
      BestFromBookIsTop(orders, bids, true);
      BestFromBook(orders, bids, true)
    }

    /** best_ask: the stored order of the lowest ask price, or none. */
    function BestAsk(): (r: Option<Order>)
      reads this
      requires Valid()
      ensures r.None? <==> asks == map[]
      ensures r.Some? ==> Listed(bids, asks, r.value) && r.value.id in orders && orders[r.value.id] == r.value
      ensures r.Some? ==> !IsBid(r.value.amount) && forall p :: p in asks ==> p >= r.value.price
    {
      BestFromBookIsTop(orders, asks, false);
      BestFromBook(orders, asks, false)
    }
  }
}
