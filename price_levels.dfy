/**
 * The price levels of the vector-backed order book: each side is a sequence of
 * levels kept best first, each level holding the ids resting at its price.
 */
module PriceLevels {
  import opened Orders

  /** A price with the ids of the orders resting at it, in their current order. */
  datatype Level = Level(price: int, ids: seq<nat>)

  /** Levels strictly ordered best first: strictly descending for bids, strictly ascending for asks. */
  ghost predicate Sorted(levels: seq<Level>, bid: bool) {
    forall i, j :: 0 <= i < j < |levels| ==> Ahead(levels[i].price, levels[j].price, bid)
  }

  /** No two levels share a price. */
  ghost predicate UniquePrices(levels: seq<Level>) {
    forall i, j :: 0 <= i < j < |levels| ==> levels[i].price != levels[j].price
  }

  /** What a lower-bound search for price needs: the levels ranking ahead of price form a prefix. */
  ghost predicate Partitioned(levels: seq<Level>, price: int, bid: bool) {
    forall i, j :: 0 <= i < j < |levels| && Ahead(levels[j].price, price, bid) ==> Ahead(levels[i].price, price, bid)
  }

  /** Some level carries this price. */
  ghost predicate HasPrice(levels: seq<Level>, price: int) {
    exists k :: 0 <= k < |levels| && levels[k].price == price
  }

  /** Every level holds at least one id. */
  ghost predicate NoEmptyLevel(levels: seq<Level>) {
    forall i :: 0 <= i < |levels| ==> |levels[i].ids| > 0
  }

  /** No id occurs twice. */
  ghost predicate NoDup(s: seq<nat>) {
    forall i, j :: 0 <= i < j < |s| ==> s[i] != s[j]
  }

  /** The ids resting at price: those of the first level carrying it, or none when no level does. */
  function Ids(levels: seq<Level>, price: int): seq<nat> {
    if |levels| == 0 then []
    else if levels[0].price == price then levels[0].ids
    else Ids(levels[1..], price)
  }

  lemma SortedUnique(levels: seq<Level>, bid: bool)
    requires Sorted(levels, bid)
    ensures UniquePrices(levels)
  {
  }

  /** On levels with distinct prices, Ids finds the level carrying the price. */
  lemma {:induction false} IdsAtLevel(levels: seq<Level>, i: nat)
    requires i < |levels|
    requires forall k :: 0 <= k < i ==> levels[k].price != levels[i].price
    ensures Ids(levels, levels[i].price) == levels[i].ids
  {
    if i > 0 {
      IdsAtLevel(levels[1..], i - 1);
    }
  }

  /** A price no level carries has no ids. */
  lemma {:induction false} IdsAbsent(levels: seq<Level>, price: int)
    requires !HasPrice(levels, price)
    ensures Ids(levels, price) == []
  {
    if |levels| > 0 {
      assert !HasPrice(levels[1..], price) by {
        forall k | 0 <= k < |levels[1..]| ensures levels[1..][k].price != price {
          assert levels[1..][k] == levels[k + 1];
        }
      }
      IdsAbsent(levels[1..], price);
    }
  }

  /** On sorted levels the ids at a price are exactly those of the level carrying it, if any. */
  lemma IdsOnSorted(levels: seq<Level>, bid: bool, price: int)
    requires Sorted(levels, bid)
    ensures forall k :: 0 <= k < |levels| && levels[k].price == price ==> Ids(levels, price) == levels[k].ids
    ensures !HasPrice(levels, price) ==> Ids(levels, price) == []
  {
    forall k | 0 <= k < |levels| && levels[k].price == price
      ensures Ids(levels, price) == levels[k].ids
    {
      IdsAtLevel(levels, k);
    }
    if !HasPrice(levels, price) {
      IdsAbsent(levels, price);
    }
  }

  /** Replacing the ids of level j changes the view at its price only. */
  lemma {:induction false} IdsAfterUpdate(levels: seq<Level>, j: nat, ids: seq<nat>)
    requires j < |levels| && UniquePrices(levels)
    ensures forall p :: Ids(levels[j := Level(levels[j].price, ids)], p)
                        == if p == levels[j].price then ids else Ids(levels, p)
  {
    var updated := levels[j := Level(levels[j].price, ids)];
    if j > 0 {
      var tail := levels[1..];
      assert updated[1..] == tail[j - 1 := Level(tail[j - 1].price, ids)];
      assert UniquePrices(tail) by {
        forall a, b | 0 <= a < b < |tail| ensures tail[a].price != tail[b].price {
          assert tail[a] == levels[a + 1] && tail[b] == levels[b + 1];
        }
      }
      IdsAfterUpdate(tail, j - 1, ids);
      assert levels[0].price != levels[j].price;
      forall p ensures Ids(updated, p) == if p == levels[j].price then ids else Ids(levels, p) {
        assert updated[0] == levels[0];
        assert tail[j - 1].price == levels[j].price;
        if levels[0].price != p {
          assert Ids(updated, p) == Ids(updated[1..], p);
          assert Ids(levels, p) == Ids(tail, p);
        }
      }
    } else {
      forall p ensures Ids(updated, p) == if p == levels[j].price then ids else Ids(levels, p) {
        if p != levels[0].price {
          assert updated[1..] == levels[1..];
        }
      }
    }
  }

  /** Erasing level j removes its price from the view and changes nothing else. */
  lemma {:induction false} IdsAfterErase(levels: seq<Level>, j: nat)
    requires j < |levels| && UniquePrices(levels)
    ensures forall p :: Ids(levels[..j] + levels[j + 1..], p)
                        == if p == levels[j].price then [] else Ids(levels, p)
  {
    var erased := levels[..j] + levels[j + 1..];
    if j == 0 {
      assert erased == levels[1..];
      assert !HasPrice(levels[1..], levels[0].price) by {
        forall k | 0 <= k < |levels[1..]| ensures levels[1..][k].price != levels[0].price {
          assert levels[1..][k] == levels[k + 1];
        }
      }
      IdsAbsent(levels[1..], levels[0].price);
    } else {
      var tail := levels[1..];
      assert erased[1..] == tail[..j - 1] + tail[j..];
      assert UniquePrices(tail) by {
        forall a, b | 0 <= a < b < |tail| ensures tail[a].price != tail[b].price {
          assert tail[a] == levels[a + 1] && tail[b] == levels[b + 1];
        }
      }
      IdsAfterErase(tail, j - 1);
      assert levels[0].price != levels[j].price;
      forall p ensures Ids(erased, p) == if p == levels[j].price then [] else Ids(levels, p) {
        assert erased[0] == levels[0];
        assert tail[j - 1].price == levels[j].price;
        if levels[0].price != p {
          assert Ids(erased, p) == Ids(erased[1..], p);
          assert Ids(levels, p) == Ids(tail, p);
        }
      }
    }
  }

  /** Inserting an empty level at a fresh price leaves the view unchanged. */
  lemma {:induction false} IdsAfterInsert(levels: seq<Level>, i: nat, price: int)
    requires i <= |levels| && !HasPrice(levels, price)
    ensures forall p :: Ids(levels[..i] + [Level(price, [])] + levels[i..], p) == Ids(levels, p)
  {
    var inserted := levels[..i] + [Level(price, [])] + levels[i..];
    if i == 0 {
      assert inserted == [Level(price, [])] + levels;
      assert inserted[1..] == levels;
      IdsAbsent(levels, price);
    } else {
      var tail := levels[1..];
      assert inserted[1..] == tail[..i - 1] + [Level(price, [])] + tail[i - 1..];
      assert !HasPrice(tail, price) by {
        forall k | 0 <= k < |tail| ensures tail[k].price != price {
          assert tail[k] == levels[k + 1];
        }
      }
      IdsAfterInsert(tail, i - 1, price);
    }
  }

  /** Lower-bound search: the first position whose level does not rank ahead of price. */
  method FindInsert(levels: seq<Level>, price: int, bid: bool) returns (i: nat)
    requires Partitioned(levels, price, bid)
    ensures i <= |levels|
    ensures forall k :: 0 <= k < i ==> Ahead(levels[k].price, price, bid)
    ensures forall k :: i <= k < |levels| ==> !Ahead(levels[k].price, price, bid)
  {
    var lo, hi := 0, |levels|;
    while lo < hi
      invariant 0 <= lo <= hi <= |levels|
      invariant forall k :: 0 <= k < lo ==> Ahead(levels[k].price, price, bid)
      invariant forall k :: hi <= k < |levels| ==> !Ahead(levels[k].price, price, bid)
    {
      var mid := lo + (hi - lo) / 2;
      if Ahead(levels[mid].price, price, bid) {
        lo := mid + 1;
      } else {
        hi := mid;
      }
    }
    i := lo;
  }

  /**
   * The level at price, created empty at its sorted position when missing;
   * the levels stay sorted and the ids at every price are unchanged.
   */
  method EnsureLevel(levels: seq<Level>, price: int, bid: bool) returns (r: seq<Level>, i: nat)
    requires Sorted(levels, bid)
    ensures i < |r| && r[i].price == price
    ensures Sorted(r, bid)
    ensures HasPrice(levels, price) ==> r == levels
    ensures !HasPrice(levels, price) ==> i <= |levels| && r == levels[..i] + [Level(price, [])] + levels[i..]
    ensures forall p :: Ids(r, p) == Ids(levels, p)
  {
    i := FindInsert(levels, price, bid);
    if i == |levels| || levels[i].price != price {
      assert !HasPrice(levels, price);
      r := levels[..i] + [Level(price, [])] + levels[i..];
      IdsAfterInsert(levels, i, price);
    } else {
      r := levels;
    }
  }

  /** The position of the level at price, or |levels| (the end) when no level carries it. */
  method FindLevel(levels: seq<Level>, price: int, bid: bool) returns (i: nat)
    requires Sorted(levels, bid)
    ensures i <= |levels|
    ensures i < |levels| ==> levels[i].price == price
    ensures i == |levels| <==> !HasPrice(levels, price)
  {
    i := FindInsert(levels, price, bid);
    if !(i < |levels| && levels[i].price == price) {
      i := |levels|;
    }
  }

  /** The position of the first occurrence of x. */
  function IndexOf(s: seq<nat>, x: nat): (i: nat)
    requires x in s
    ensures i < |s| && s[i] == x && x !in s[..i]
  {
    if s[0] == x then 0
    else
      var j := IndexOf(s[1..], x);
      assert s[..j + 1] == [s[0]] + s[1..][..j];
      j + 1
  }

  /** Position i removed by moving the last id into it and dropping the last slot. */
  function SwapRemove(s: seq<nat>, i: nat): seq<nat>
    requires i < |s|
  {
    s[i := s[|s| - 1]][..|s| - 1]
  }

  /** The ids with the first occurrence of x swap-removed; unchanged when x is absent. */
  function Without(s: seq<nat>, x: nat): seq<nat> {
    if x in s then SwapRemove(s, IndexOf(s, x)) else s
  }

  /** Swap-removal takes out exactly one copy of the removed id and keeps every other id. */
  lemma SwapRemoveMultiset(s: seq<nat>, i: nat)
    requires i < |s|
    ensures |SwapRemove(s, i)| == |s| - 1
    ensures multiset(SwapRemove(s, i)) == multiset(s) - multiset{s[i]}
  {
    var n := |s|;
    var r := SwapRemove(s, i);
    if i == n - 1 {
      assert r == s[..n - 1];
      assert s == s[..n - 1] + [s[n - 1]];
    } else {
      assert s == s[..i] + [s[i]] + s[i + 1..n - 1] + [s[n - 1]];
      assert r == s[..i] + [s[n - 1]] + s[i + 1..n - 1];
    }
  }

  /** Removing a present id from duplicate-free ids keeps them duplicate-free and drops that id only. */
  lemma WithoutMembers(s: seq<nat>, x: nat)
    requires NoDup(s) && x in s
    ensures |Without(s, x)| == |s| - 1
    ensures NoDup(Without(s, x))
    ensures forall y :: y in Without(s, x) <==> y in s && y != x
  {
    var i := IndexOf(s, x);
    var r := Without(s, x);
    var n := |s|;
    assert r == SwapRemove(s, i);
    assert forall k :: 0 <= k < n - 1 ==> r[k] == (if k == i then s[n - 1] else s[k]);
    forall y
      ensures y in r <==> y in s && y != x
    {
      if y in r {
        var k :| 0 <= k < |r| && r[k] == y;
        if k == i { assert y == s[n - 1]; } else { assert y == s[k]; }
      }
      if y in s && y != x {
        var k :| 0 <= k < n && s[k] == y;
        if k == n - 1 {
          assert r[i] == y;
        } else {
          assert k != i;
          assert r[k] == y;
        }
      }
    }
  }

  /** Removal of one id from a level: the loop of remove_id_from_level. */
  method RemoveIdFromLevel(level: Level, id: nat) returns (r: Level, removed: bool)
    ensures removed <==> id in level.ids
    ensures r.price == level.price
    ensures r.ids == Without(level.ids, id)
    ensures removed ==> multiset(r.ids) == multiset(level.ids) - multiset{id}
  {
    var ids := level.ids;
    var i := 0;
    while i < |ids|
      invariant i <= |ids|
      invariant id !in ids[..i]
    {
      if ids[i] == id {
        assert i == IndexOf(ids, id);
        SwapRemoveMultiset(ids, i);
        var last := |ids| - 1;
        ids := ids[i := ids[last]];
        r := Level(level.price, ids[..last]);
        return r, true;
      }
      i := i + 1;
    }
    assert ids[..i] == ids;
    return level, false;
  }

  /** Swap-removing an id appended last, when it was not there before, gives back the earlier ids. */
  lemma WithoutAppended(s: seq<nat>, x: nat)
    requires x !in s
    ensures Without(s + [x], x) == s
  {
    var t := s + [x];
    assert x in t && t[|s|] == x;
    assert IndexOf(t, x) == |s|;
    assert t[|s| := t[|s|]][..|s|] == s;
  }

  /** Sorted levels without empty levels are determined by the ids they hold at each price. */
  lemma {:induction false} ViewDeterminesLevels(a: seq<Level>, b: seq<Level>, bid: bool)
    requires Sorted(a, bid) && NoEmptyLevel(a)
    requires Sorted(b, bid) && NoEmptyLevel(b)
    requires forall p :: Ids(a, p) == Ids(b, p)
    ensures a == b
  {
    if |a| > 0 {
      assert Ids(a, a[0].price) == a[0].ids;
    }
    if |b| > 0 {
      assert Ids(b, b[0].price) == b[0].ids;
    }
    if |a| > 0 && |b| > 0 {
      var pa, pb := a[0].price, b[0].price;
      IdsOnSorted(a, bid, pb);
      IdsOnSorted(b, bid, pa);
      assert Ids(a, pa) == a[0].ids && Ids(b, pb) == b[0].ids;
      assert HasPrice(b, pa);
      assert HasPrice(a, pb);
      assert pa == pb;
      var ta, tb := a[1..], b[1..];
      forall p ensures Ids(ta, p) == Ids(tb, p) {
        if p == pa {
          assert !HasPrice(ta, pa) by {
            forall k | 0 <= k < |ta| ensures ta[k].price != pa { assert ta[k] == a[k + 1]; }
          }
          assert !HasPrice(tb, pa) by {
            forall k | 0 <= k < |tb| ensures tb[k].price != pa { assert tb[k] == b[k + 1]; }
          }
          IdsAbsent(ta, pa);
          IdsAbsent(tb, pa);
        } else {
          assert Ids(a, p) == Ids(ta, p) && Ids(b, p) == Ids(tb, p);
        }
      }
      ViewDeterminesLevels(ta, tb, bid);
      assert a == [a[0]] + ta && b == [b[0]] + tb;
    }
  }
}
