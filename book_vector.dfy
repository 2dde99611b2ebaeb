/**
 * The limit order book over sorted price-level vectors: an id -> order store
 * plus a bid side (best = highest price first) and an ask side (best = lowest
 * price first), each a sequence of levels holding any number of ids.
 */
module BookVector {
  import opened Wrappers
  import opened Orders
  import opened PriceLevels

  /** The order stored under id rests at price on the given side. */
  ghost predicate Rests(orders: map<nat, Order>, id: nat, price: int, bid: bool) {
    id in orders && orders[id].price == price && IsBid(orders[id].amount) == bid
  }

  /** The shape every side keeps: sorted best first with unique prices, and no empty level. */
  ghost predicate Shaped(levels: seq<Level>, bid: bool) {
    Sorted(levels, bid) && NoEmptyLevel(levels)
  }

  /** A side agrees with the store: the ids at every price are distinct stored orders resting there. */
  ghost predicate SideHolds(orders: map<nat, Order>, levels: seq<Level>, bid: bool) {
    && Shaped(levels, bid)
    && (forall p :: NoDup(Ids(levels, p)))
    && (forall p, x :: x in Ids(levels, p) ==> Rests(orders, x, p, bid))
  }

  /**
   * Store/level consistency: both sides agree with the store, and every stored
   * order sits under its own id, has a nonzero amount and rests at its price on
   * the side of its amount's sign.
   */
  ghost predicate Consistent(orders: map<nat, Order>, bids: seq<Level>, asks: seq<Level>) {
    && SideHolds(orders, bids, true)
    && SideHolds(orders, asks, false)
    && forall id :: id in orders ==>
         && orders[id].id == id
         && orders[id].amount != 0
         && id in Ids(SideOf(bids, asks, orders[id].amount), orders[id].price)
  }

  /** After is before with id appended at price when here holds, and nothing else changed. */
  ghost predicate Appended(before: seq<Level>, after: seq<Level>, price: int, id: nat, here: bool) {
    forall p :: Ids(after, p) == if here && p == price then Ids(before, p) + [id] else Ids(before, p)
  }

  /** After is before with id swap-removed at price when here holds, and nothing else changed. */
  ghost predicate Removed(before: seq<Level>, after: seq<Level>, price: int, id: nat, here: bool) {
    forall p :: Ids(after, p) == if here && p == price then Without(Ids(before, p), id) else Ids(before, p)
  }

  /** After is before with the order previous taken out of its level and value appended at its own, on the side bid. */
  ghost predicate Moved(before: seq<Level>, after: seq<Level>, previous: Order, value: Order, bid: bool) {
    forall p :: Ids(after, p) ==
      var kept := if IsBid(previous.amount) == bid && p == previous.price
                  then Without(Ids(before, p), value.id) else Ids(before, p);
      if IsBid(value.amount) == bid && p == value.price then kept + [value.id] else kept
  }

  /** The stored order is a best order of its side: no stored order of that side has a better price. */
  ghost predicate IsBest(orders: map<nat, Order>, o: Order, bid: bool) {
    && o.id in orders && orders[o.id] == o && IsBid(o.amount) == bid
    && forall id :: id in orders && IsBid(orders[id].amount) == bid ==> !Ahead(orders[id].price, o.price, bid)
  }

  /** No stored order is on the side. */
  ghost predicate SideEmpty(orders: map<nat, Order>, bid: bool) {
    forall id :: id in orders ==> IsBid(orders[id].amount) != bid
  }

  /** Appends id to the level at price, creating that level at its sorted position when missing. */
  method AddToLevels(levels: seq<Level>, price: int, id: nat, bid: bool) returns (r: seq<Level>)
    requires Shaped(levels, bid)
    ensures Shaped(r, bid)
    ensures Appended(levels, r, price, id, true)
  {
    var lv, i := EnsureLevel(levels, price, bid);
    SortedUnique(lv, bid);
    IdsOnSorted(lv, bid, price);
    IdsAfterUpdate(lv, i, lv[i].ids + [id]);
    r := lv[i := Level(price, lv[i].ids + [id])];
    forall k | 0 <= k < |r| ensures |r[k].ids| > 0 {
      if k != i && !HasPrice(levels, price) {
        if k < i { assert r[k] == levels[k]; } else { assert r[k] == levels[k - 1]; }
      }
    }
  }

  /**
   * Swap-removes id from the level at price and erases that level if it becomes
   * empty; fails, changing nothing, when no level carries price or id is not in it.
   */
  method RemoveFromLevels(levels: seq<Level>, price: int, id: nat, bid: bool) returns (r: seq<Level>, ok: bool)
    requires Shaped(levels, bid)
    ensures ok <==> id in Ids(levels, price)
    ensures !ok ==> r == levels
    ensures Shaped(r, bid)
    ensures Removed(levels, r, price, id, true)
  {
    IdsOnSorted(levels, bid, price);
    var j := FindLevel(levels, price, bid);
    if j == |levels| {
      return levels, false;
    }
    var level, removed := RemoveIdFromLevel(levels[j], id);
    if !removed {
      return levels, false;
    }
    SortedUnique(levels, bid);
    if |level.ids| == 0 {
      r := levels[..j] + levels[j + 1..];
      IdsAfterErase(levels, j);
    } else {
      r := levels[j := level];
      IdsAfterUpdate(levels, j, level.ids);
    }
    ok := true;
  }

  /** The order whose id is first in the front level, if it is stored. */
  function BestFromLevels(orders: map<nat, Order>, levels: seq<Level>): (r: Option<Order>)
    ensures |levels| == 0 ==> r == None
    ensures r.Some? ==> r.value in orders.Values
  {
    if |levels| == 0 then None
    else if |levels[0].ids| == 0 then None
    else if levels[0].ids[0] !in orders then None
    else Some(orders[levels[0].ids[0]])
  }

  /** A stored order rests in exactly one level: the one at its price on its side, and in none of the other side. */
  lemma StoredInOneLevel(orders: map<nat, Order>, bids: seq<Level>, asks: seq<Level>, id: nat)
    requires Consistent(orders, bids, asks) && id in orders
    ensures var o := orders[id];
            var side := SideOf(bids, asks, o.amount);
            && HasPrice(side, o.price)
            && (forall i :: 0 <= i < |side| ==> (id in side[i].ids <==> side[i].price == o.price))
    ensures var other := SideOf(asks, bids, orders[id].amount);
            forall i :: 0 <= i < |other| ==> id !in other[i].ids
  {
    var o := orders[id];
    var bid := IsBid(o.amount);
    var side := SideOf(bids, asks, o.amount);
    var other := SideOf(asks, bids, o.amount);
    IdsOnSorted(side, bid, o.price);
    forall i | 0 <= i < |side| ensures id in side[i].ids <==> side[i].price == o.price {
      IdsOnSorted(side, bid, side[i].price);
    }
    forall i | 0 <= i < |other| ensures id !in other[i].ids {
      IdsOnSorted(other, !bid, other[i].price);
    }
  }

  /** Appending a fresh id at its price keeps a side in agreement with the store that now holds it. */
  lemma SideAfterPlace(orders: map<nat, Order>, levels: seq<Level>, levels': seq<Level>, value: Order, bid: bool)
    requires SideHolds(orders, levels, bid) && value.id !in orders
    requires Shaped(levels', bid)
    requires Appended(levels, levels', value.price, value.id, IsBid(value.amount) == bid)
    ensures SideHolds(orders[value.id := value], levels', bid)
  {
    var orders' := orders[value.id := value];
    forall p ensures NoDup(Ids(levels', p)) {
      if IsBid(value.amount) == bid && p == value.price {
        var s := Ids(levels, p);
        assert value.id !in s;
        assert Ids(levels', p) == s + [value.id];
      }
    }
    forall p, x | x in Ids(levels', p) ensures Rests(orders', x, p, bid) {
      if x != value.id {
        assert x in Ids(levels, p);
      }
    }
  }

  /** Placing a fresh order with nonzero amount keeps the store and the levels consistent. */
  lemma PlaceKeeps(orders: map<nat, Order>, bids: seq<Level>, asks: seq<Level>, value: Order,
                   bids': seq<Level>, asks': seq<Level>)
    requires Consistent(orders, bids, asks)
    requires value.amount != 0 && value.id !in orders
    requires Shaped(bids', true) && Shaped(asks', false)
    requires Appended(bids, bids', value.price, value.id, IsBid(value.amount))
    requires Appended(asks, asks', value.price, value.id, !IsBid(value.amount))
    ensures Consistent(orders[value.id := value], bids', asks')
  {
    var orders' := orders[value.id := value];
    SideAfterPlace(orders, bids, bids', value, true);
    SideAfterPlace(orders, asks, asks', value, false);
    forall k | k in orders' ensures k in Ids(SideOf(bids', asks', orders'[k].amount), orders'[k].price) {
      if k != value.id {
        assert k in Ids(SideOf(bids, asks, orders[k].amount), orders[k].price);
      }
    }
  }

  /** Swap-removing a stored id at its price keeps a side in agreement with the store that no longer holds it. */
  lemma SideAfterCancel(orders: map<nat, Order>, levels: seq<Level>, levels': seq<Level>, id: nat, bid: bool)
    requires SideHolds(orders, levels, bid) && id in orders
    requires Shaped(levels', bid)
    requires Removed(levels, levels', orders[id].price, id, IsBid(orders[id].amount) == bid)
    ensures SideHolds(orders - {id}, levels', bid)
  {
    var orders' := orders - {id};
    var price := orders[id].price;
    var here := IsBid(orders[id].amount) == bid;
    forall p ensures NoDup(Ids(levels', p)) {
      if here && p == price && id in Ids(levels, p) {
        WithoutMembers(Ids(levels, p), id);
      }
    }
    forall p, x | x in Ids(levels', p) ensures Rests(orders', x, p, bid) {
      if here && p == price && id in Ids(levels, p) {
        WithoutMembers(Ids(levels, p), id);
      } else {
        assert x in Ids(levels, p);
      }
    }
  }

  /** Cancelling a stored order keeps the store and the levels consistent. */
  lemma CancelKeeps(orders: map<nat, Order>, bids: seq<Level>, asks: seq<Level>, id: nat,
                    bids': seq<Level>, asks': seq<Level>)
    requires Consistent(orders, bids, asks) && id in orders
    requires Shaped(bids', true) && Shaped(asks', false)
    requires Removed(bids, bids', orders[id].price, id, IsBid(orders[id].amount))
    requires Removed(asks, asks', orders[id].price, id, !IsBid(orders[id].amount))
    ensures Consistent(orders - {id}, bids', asks')
  {
    var o := orders[id];
    var orders' := orders - {id};
    SideAfterCancel(orders, bids, bids', id, true);
    SideAfterCancel(orders, asks, asks', id, false);
    forall k | k in orders' ensures k in Ids(SideOf(bids', asks', orders'[k].amount), orders'[k].price) {
      var side := SideOf(bids, asks, orders[k].amount);
      assert k in Ids(side, orders[k].price);
      if IsBid(o.amount) == IsBid(orders[k].amount) && o.price == orders[k].price {
        WithoutMembers(Ids(side, o.price), id);
      }
    }
  }

  /** On a consistent book the best order of a side is its front level's first id: a best-priced stored order. */
  lemma BestIsTop(orders: map<nat, Order>, bids: seq<Level>, asks: seq<Level>, bid: bool)
    requires Consistent(orders, bids, asks)
    ensures var levels := if bid then bids else asks;
            var r := BestFromLevels(orders, levels);
            && (r.None? <==> SideEmpty(orders, bid))
            && (r.Some? ==> IsBest(orders, r.value, bid) && r.value.id == levels[0].ids[0])
  {
    var levels := if bid then bids else asks;
    if |levels| > 0 {
      var top := levels[0].price;
      IdsOnSorted(levels, bid, top);
      var x := levels[0].ids[0];
      assert x in Ids(levels, top);
      forall id | id in orders && IsBid(orders[id].amount) == bid
        ensures !Ahead(orders[id].price, top, bid)
      {
        IdsOnSorted(levels, bid, orders[id].price);
      }
    } else {
      forall id | id in orders ensures IsBid(orders[id].amount) != bid {
        assert Ids(levels, orders[id].price) == [];
      }
    }
  }

  /** When one stored order of a side is strictly ahead of every other order of that side, it is the only best order. */
  lemma BestIsStrictlyAhead(orders: map<nat, Order>, o: Order, top: nat, bid: bool)
    requires IsBest(orders, o, bid)
    requires top in orders && IsBid(orders[top].amount) == bid
    requires forall id :: id in orders && id != top && IsBid(orders[id].amount) == bid ==>
               Ahead(orders[top].price, orders[id].price, bid)
    ensures o == orders[top]
  {
  }

  /** A cancel followed by a place of the same id moves that id from its old level to its new one. */
  lemma CancelThenPlace(before: seq<Level>, between: seq<Level>, after: seq<Level>,
                        previous: Order, value: Order, bid: bool)
    requires Removed(before, between, previous.price, value.id, IsBid(previous.amount) == bid)
    requires Appended(between, after, value.price, value.id, IsBid(value.amount) == bid)
    ensures Moved(before, after, previous, value, bid)
  {
    forall p ensures Ids(after, p) ==
      var kept := if IsBid(previous.amount) == bid && p == previous.price
                  then Without(Ids(before, p), value.id) else Ids(before, p);
      if IsBid(value.amount) == bid && p == value.price then kept + [value.id] else kept
    {
      assert Ids(after, p) == if IsBid(value.amount) == bid && p == value.price then Ids(between, p) + [value.id] else Ids(between, p);
    }
  }

  /** Cancelling right after a successful place gives back exactly the levels the side had before. */
  lemma CancelUndoesPlace(levels: seq<Level>, placed: seq<Level>, cancelled: seq<Level>,
                          price: int, id: nat, bid: bool)
    requires Shaped(levels, bid) && Shaped(placed, bid) && Shaped(cancelled, bid)
    requires id !in Ids(levels, price)
    requires Appended(levels, placed, price, id, true)
    requires Removed(placed, cancelled, price, id, true)
    ensures cancelled == levels
  {
    forall p ensures Ids(cancelled, p) == Ids(levels, p) {
      if p == price {
        WithoutAppended(Ids(levels, p), id);
      }
    }
    ViewDeterminesLevels(cancelled, levels, bid);
  }

  /** Dropping a key and storing it again equals overwriting it. */
  lemma StoreAgain(m: map<nat, Order>, k: nat, v: Order)
    ensures (m - {k})[k := v] == m[k := v]
  {
    assert ((m - {k})[k := v]).Keys == m[k := v].Keys;
  }

  class BaseBookVector {
    var orders: map<nat, Order>
    var bids: seq<Level>
    var asks: seq<Level>

    ghost predicate Valid()
      reads this
    {
      Consistent(orders, bids, asks)
    }

    constructor ()
      ensures Valid()
      ensures orders == map[] && bids == [] && asks == []
    {
      orders, bids, asks := map[], [], [];
    }

    /**
     * Accepts an order with nonzero amount and a fresh id: appends its id at its
     * price on the side of its sign and stores it. Otherwise changes nothing.
     */
    method Place(value: Order) returns (ok: bool)
      requires Valid()
      modifies this
      ensures Valid()
      ensures ok <==> value.amount != 0 && value.id !in old(orders)
      ensures !ok ==> orders == old(orders) && bids == old(bids) && asks == old(asks)
      ensures ok ==> orders == old(orders)[value.id := value]
      ensures ok ==> Appended(old(bids), bids, value.price, value.id, IsBid(value.amount))
      ensures ok ==> Appended(old(asks), asks, value.price, value.id, !IsBid(value.amount))
      ensures ok ==> if IsBid(value.amount) then asks == old(asks) else bids == old(bids)
    {
      if value.amount == 0 || value.id in orders {
        return false;
      }
      if IsBid(value.amount) {
        bids := AddToLevels(bids, value.price, value.id, true);
      } else {
        asks := AddToLevels(asks, value.price, value.id, false);
      }
      PlaceKeeps(orders, old(bids), old(asks), value, bids, asks);
      orders := orders[value.id := value];
      ok := true;
    }

    /**
     * Removes a stored order: swap-removes its id from its level, erasing the
     * level when it empties, then drops it from the store. Fails on an unknown id.
     */
    method Cancel(id: nat) returns (ok: bool)
      requires Valid()
      modifies this
      ensures Valid()
      ensures ok <==> id in old(orders)
      ensures !ok ==> orders == old(orders) && bids == old(bids) && asks == old(asks)
      ensures ok ==> orders == old(orders) - {id}
      ensures ok ==> Removed(old(bids), bids, old(orders)[id].price, id, IsBid(old(orders)[id].amount))
      ensures ok ==> Removed(old(asks), asks, old(orders)[id].price, id, !IsBid(old(orders)[id].amount))
    {
      if id !in orders {
        return false;
      }
      var current := orders[id];
      var removed;
      if IsBid(current.amount) {
        var levels;
        levels, removed := RemoveFromLevels(bids, current.price, id, true);
        if !removed {
          return false;
        }
        bids := levels;
      } else {
        var levels;
        levels, removed := RemoveFromLevels(asks, current.price, id, false);
        if !removed {
          return false;
        }
        asks := levels;
      }
      CancelKeeps(orders, old(bids), old(asks), id, bids, asks);
      orders := orders - {id};
      ok := true;
    }

    /**
     * With amount 0 this is Cancel(value.id). Otherwise a stored order is
     * cancelled and value placed in its stead; an unknown id fails.
     */
    method Modify(value: Order) returns (ok: bool)
      requires Valid()
      modifies this
      ensures Valid()
      ensures ok <==> value.id in old(orders)
      ensures !ok ==> orders == old(orders) && bids == old(bids) && asks == old(asks)
      ensures ok && value.amount == 0 ==>
        && orders == old(orders) - {value.id}
        && Removed(old(bids), bids, old(orders)[value.id].price, value.id, IsBid(old(orders)[value.id].amount))
        && Removed(old(asks), asks, old(orders)[value.id].price, value.id, !IsBid(old(orders)[value.id].amount))
      ensures ok && value.amount != 0 ==>
        && orders == old(orders)[value.id := value]
        && Moved(old(bids), bids, old(orders)[value.id], value, true)
        && Moved(old(asks), asks, old(orders)[value.id], value, false)
    {
      if value.amount == 0 {
        ok := Cancel(value.id);
        return;
      }
      if value.id !in orders {
        return false;
      }
      ghost var previous := orders[value.id];
      ghost var bids0, asks0 := bids, asks;
      ok := Cancel(value.id);
      if !ok {
        return;
      }
      ghost var bids1, asks1 := bids, asks;
      assert orders == old(orders) - {value.id};
      ok := Place(value);
      StoreAgain(old(orders), value.id, value);
      CancelThenPlace(bids0, bids1, bids, previous, value, true);
      CancelThenPlace(asks0, asks1, asks, previous, value, false);
    }

    /** The best bid: the first order of the highest bid level, or none when no bid is stored. */
    function BestBid(): (r: Option<Order>)
      reads this
      requires Valid()
      ensures r.None? <==> SideEmpty(orders, true)
      ensures r.Some? ==> IsBest(orders, r.value, true) && r.value.id == bids[0].ids[0]
    {
      BestIsTop(orders, bids, asks, true);
      BestFromLevels(orders, bids)
    }

    /** The best ask: the first order of the lowest ask level, or none when no ask is stored. */
    function BestAsk(): (r: Option<Order>)
      reads this
      requires Valid()
      ensures r.None? <==> SideEmpty(orders, false)
      ensures r.Some? ==> IsBest(orders, r.value, false) && r.value.id == asks[0].ids[0]
    {
      BestIsTop(orders, bids, asks, false);
      BestFromLevels(orders, asks)
    }
  }
}
