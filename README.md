# arena, modelled in Dafny

This project models four small in-place data structures from the `arena` library and proves properties about them.

- **`base_book_vector`** is a limit order book. It has an id → order store and two vectors of price levels. Bid levels are sorted by descending price and ask levels by ascending price. Each level holds the ids of the orders resting at its price.
  - `BookVector.BaseBookVector` is a class over a `map<nat, Order>` and two `seq<Level>`.
  - The lower-bound search, the swap-with-last removal loop and the level insert are methods in module `PriceLevels`; the erase of an emptied level is in `BookVector.RemoveFromLevels`.
  - The invariant is `BookVector.Consistent`:
    - levels are sorted with unique prices;
    - no level is empty;
    - every stored order rests in the level at its price, on the side given by its amount's sign;
    - every id in a level names a stored order resting there.
- **`base_book_map`** is the same interface over a price → id index per side, so it holds at most one id per price.
  - `BookMap.BaseBookMap` keeps a `map<int, nat>` per side.
  - Inserting at an occupied price changes nothing, yet `add_to_book` still reports success.
  - The invariant that survives is `BookMap.Indexed`: every index entry names a stored order of that price and side.
- **`arena::vector<T>`** is `ArenaVector.Vector`, an array of length `capacity` plus a `size` field.
- **`RoundRobinPolicy` / `LoadBalancer`** (module `Probe`) is a counter that wraps at the current number of resources, plus an append-only resource list.

The modules `BookVector`, `BookMap`, `ArenaVector` and `Probe` each have a companion module (`BookVectorScenarios`, `BookMapScenarios`, `VectorScenarios`, `ProbeScenarios`). It restates the documented test cases as methods whose postconditions give the expected results.

Prices and ids are unbounded integers; the books do no arithmetic on them. Order is `Order(id, price, amount)`, and `amount > 0` marks a bid (`Orders.IsBid`). `Orders.Ahead(p, q, bid)` is the side's ordering: `p > q` for bids, `p < q` for asks.

## Model

| member | source | states |
|---|---|---|
| PriceLevels.FindInsert | include/arena/base_book_vector.hpp:81-93 | Lower bound by binary search. Every level before the result ranks ahead of the price on its side; no level from the result onwards does. |
| PriceLevels.EnsureLevel | include/arena/base_book_vector.hpp:95-107 | Returns a position holding the price. A missing level is inserted, empty, at the lower-bound position. The levels stay sorted and the ids at every price are unchanged. |
| PriceLevels.FindLevel | include/arena/base_book_vector.hpp:109-121 | Returns the position of the level at the price, or the end exactly when no level carries it. |
| PriceLevels.RemoveIdFromLevel | include/arena/base_book_vector.hpp:123-132 | Succeeds iff the id is in the level. The first occurrence is replaced by the last id and the last slot dropped. The multiset of ids loses exactly that one id. |
| PriceLevels.SwapRemoveMultiset | include/arena/base_book_vector.hpp:126-127 | Swap-with-last removal shortens the ids by one and removes exactly one copy of the removed id from the multiset. |
| PriceLevels.WithoutMembers | include/arena/base_book_vector.hpp:123-132 | On duplicate-free ids, removing a present id keeps them duplicate-free and drops that id alone. |
| PriceLevels.IdsOnSorted | include/arena/base_book_vector.hpp:109-121 | On sorted levels, the ids at a price are those of the level carrying it, or none. |
| PriceLevels.IdsAfterUpdate | include/arena/base_book_vector.hpp:26 | Changing the ids of one level changes the view at that level's price only. |
| PriceLevels.IdsAfterErase | include/arena/base_book_vector.hpp:54-55 | Erasing a level empties its price in the view and changes nothing else. |
| PriceLevels.IdsAfterInsert | include/arena/base_book_vector.hpp:97-98 | Inserting an empty level at a fresh price leaves the view unchanged. |
| PriceLevels.ViewDeterminesLevels | include/arena/base_book_vector.hpp:147-149 | Two sorted sides with no empty level that hold the same ids at every price are equal. |
| PriceLevels.SortedUnique | include/arena/base_book_vector.hpp:81-93 | Proof helper, a consequence of the sorted-levels definition: strictly sorted levels have pairwise distinct prices. |
| BookVector.AddToLevels | include/arena/base_book_vector.hpp:24-30 | Appends the id at the price, creating the level if needed. The side stays sorted, with no empty level, and every other price is untouched. |
| BookVector.RemoveFromLevels | include/arena/base_book_vector.hpp:50-61 | Succeeds iff the id rests at the price. It then swap-removes the id and erases the level once it is empty. A failure changes nothing. |
| BookVector.StoredInOneLevel | include/arena/base_book_vector.hpp:147-149 | On a consistent book, a stored order's id is in exactly one level of its side (the one at its price) and in no level of the other side. |
| BookVector.PlaceKeeps | include/arena/base_book_vector.hpp:21-33 | Placing a fresh nonzero order keeps the store and the levels consistent. |
| BookVector.SideAfterPlace | include/arena/base_book_vector.hpp:24-31 | After appending a fresh id, each side still agrees with the extended store. |
| BookVector.CancelKeeps | include/arena/base_book_vector.hpp:45-66 | Cancelling a stored order keeps the store and the levels consistent. |
| BookVector.SideAfterCancel | include/arena/base_book_vector.hpp:50-64 | After swap-removing a stored id, each side still agrees with the reduced store. |
| BookVector.BestIsTop | include/arena/base_book_vector.hpp:134-145 | On a consistent book, the order named first in the front level is a best-priced stored order of its side. When the side has no levels, no stored order is on that side. |
| BookVector.BestIsStrictlyAhead | include/arena/base_book_vector.hpp:134-145 | If one stored order is strictly ahead of all others on its side, it is the only best order. |
| BookVector.CancelThenPlace | include/arena/base_book_vector.hpp:35-43 | A cancel followed by a place of the same id moves that id from its old level to the end of its new one. |
| BookVector.CancelUndoesPlace | include/arena/base_book_vector.hpp:21-66 | Cancelling right after a successful place restores the side's levels exactly. |
| BookVector.StoreAgain | include/arena/base_book_vector.hpp:35-43 | Proof helper, a map identity used for `modify`'s store: erasing an id and then storing it again is the same as overwriting it. |
| BookVector.BestFromLevels | include/arena/base_book_vector.hpp:134-145 | None for a side without levels. Any result is a stored order. `BestIsTop` proves that on a consistent book it is a best-priced order of the side. |
| BookVector.BaseBookVector.constructor | include/arena/base_book_vector.hpp:147-149 | An empty store and no levels on either side; the book is consistent. |
| BookVector.BaseBookVector.Place | include/arena/base_book_vector.hpp:21-33 | Succeeds iff the amount is nonzero and the id is new. On failure nothing changes. On success the order is stored and its id appended at its price, on its side only. Consistency is kept. |
| BookVector.BaseBookVector.Cancel | include/arena/base_book_vector.hpp:45-66 | Succeeds iff the id is stored, so a stored id always cancels. On failure nothing changes. On success the order is gone and its id is swap-removed from its level, on its side only. Consistency is kept. |
| BookVector.BaseBookVector.Modify | include/arena/base_book_vector.hpp:35-43 | Succeeds iff the id is stored. A zero amount acts as cancel. Otherwise the stored value becomes the new one and the id moves from its old level to its new one. On failure nothing changes. |
| BookVector.BaseBookVector.BestBid | include/arena/base_book_vector.hpp:68 | None iff no bid is stored. Otherwise returns the stored bid first in the top level, and no stored bid has a higher price. |
| BookVector.BaseBookVector.BestAsk | include/arena/base_book_vector.hpp:69 | None iff no ask is stored. Otherwise returns the stored ask first in the top level, and no stored ask has a lower price. |
| BookVectorScenarios.PlaceAndBestBid | include/arena/base_book_vector.hpp:163-172 | One bid placed: it is the best bid, and there is no best ask. |
| BookVectorScenarios.PlaceAndBestAsk | include/arena/base_book_vector.hpp:174-183 | One ask placed: it is the best ask, and there is no best bid. |
| BookVectorScenarios.BestBidIsHighest | include/arena/base_book_vector.hpp:185-195 | Of bids at 100, 99 and 101, the best is the one at 101. |
| BookVectorScenarios.BestAskIsLowest | include/arena/base_book_vector.hpp:185-204 | With the bids at 100, 99 and 101 still stored, asks at 102 and 98 are added, and the best ask is the one at 98. |
| BookVectorScenarios.ModifyMovesOrderBetweenLevels | include/arena/base_book_vector.hpp:206-223 | Modifying order 2 to 101 makes it the best bid. Modifying it to (90, -6) then makes it the best ask. |
| BookVectorScenarios.CancelRemovesOrders | include/arena/base_book_vector.hpp:225-233 | Cancelling the only bid and then the only ask succeeds, and leaves no best bid or best ask. |
| BookMap.Emplace | include/arena/base_book_map.hpp:89 | Insert-if-absent: the price becomes a key; an existing entry keeps its id; a free price gets the new id. |
| BookMap.Emplaced | include/arena/base_book_map.hpp:87-94 | The order's own side receives the insert-if-absent; the other side is unchanged. |
| BookMap.Erased | include/arena/base_book_map.hpp:96-115 | The order's price leaves its own side and no other key does, and the remaining entries keep their ids; the other side is unchanged. |
| BookMap.FirstKey | include/arena/base_book_map.hpp:22-23 | Picks a key ahead of every other key: the highest bid price or the lowest ask price. |
| BookMap.HasFirst | include/arena/base_book_map.hpp:22-23 | Every non-empty set of prices has a first key in the side's order. |
| BookMap.FirstAfterAdding | include/arena/base_book_map.hpp:22-23 | Adding a price to a set moves the first key to whichever of the two comes first. |
| BookMap.BestFromBook | include/arena/base_book_map.hpp:117-124 | None for an empty side. Any result is a stored order. |
| BookMap.BestFromBookIsTop | include/arena/base_book_map.hpp:117-124 | On an indexed book the result exists iff the side is non-empty. It is the stored order of the first price, on that side, and no key of the side is ahead of it. |
| BookMap.EntriesDistinct | include/arena/base_book_map.hpp:22-27 | On an indexed book no id is the target of two entries, whether on one side or across both. |
| BookMap.ListedIffPriceFree | include/arena/base_book_map.hpp:35-41 | Placing a fresh order indexes it exactly when its price was free on its side. |
| BookMap.PlaceKeeps | include/arena/base_book_map.hpp:32-41 | Storing a fresh nonzero order and adding its entry keeps the book indexed. |
| BookMap.CancelKeeps | include/arena/base_book_map.hpp:68-77 | Erasing a listed order's entry and then the order keeps the book indexed. |
| BookMap.OverwriteKeeps | include/arena/base_book_map.hpp:52-55 | Overwriting an order with a value of the same side and price keeps the book indexed. |
| BookMap.MoveKeeps | include/arena/base_book_map.hpp:57-65 | Erasing a listed order's entry, overwriting the order and adding the new entry keeps the book indexed. |
| BookMap.BaseBookMap.constructor | include/arena/base_book_map.hpp:25-27 | An empty store and empty indexes; the book is indexed. |
| BookMap.BaseBookMap.AddToBook | include/arena/base_book_map.hpp:87-94 | Always reports success. Leaves the store alone and applies insert-if-absent on the order's side only. |
| BookMap.BaseBookMap.RemoveFromBook | include/arena/base_book_map.hpp:96-115 | Succeeds iff the order's side maps its price to its id. It then erases that entry only. On failure nothing changes. |
| BookMap.BaseBookMap.Place | include/arena/base_book_map.hpp:32-41 | Succeeds iff the amount is nonzero and the id is new, even when the price is taken. On failure nothing changes. On success the order is stored and insert-if-absent applied. The rollback cannot happen. |
| BookMap.BaseBookMap.Cancel | include/arena/base_book_map.hpp:68-77 | An unknown id, or a stored order without its entry, fails with nothing changed. Otherwise the entry and then the order are removed. |
| BookMap.BaseBookMap.Modify | include/arena/base_book_map.hpp:43-66 | A zero amount acts exactly as cancel, and an unknown id fails unchanged. The same side and price overwrite the stored value only. Otherwise an unlisted order fails unchanged; a listed one has its entry erased, its value replaced and the new entry inserted if absent. The rollback cannot happen. |
| BookMap.BaseBookMap.BestBid | include/arena/base_book_map.hpp:79 | None iff the bid index is empty. Otherwise returns the indexed, stored bid at the highest indexed bid price. |
| BookMap.BaseBookMap.BestAsk | include/arena/base_book_map.hpp:80 | None iff the ask index is empty. Otherwise returns the indexed, stored ask at the lowest indexed ask price. |
| BookMapScenarios.PlaceAndBestBid | include/arena/base_book_map.hpp:138-147 | One bid placed: it is the best bid, and there is no best ask. |
| BookMapScenarios.PlaceAndBestAsk | include/arena/base_book_map.hpp:149-158 | One ask placed: it is the best ask, and there is no best bid. |
| BookMapScenarios.BestBidIsHighest | include/arena/base_book_map.hpp:160-170 | Of bids at 100, 99 and 101, the best is the one at 101. |
| BookMapScenarios.BestAskIsLowest | include/arena/base_book_map.hpp:160-179 | With the bids at 100, 99 and 101 still stored, asks at 102 and 98 are added, and the best ask is the one at 98. |
| BookMapScenarios.ModifyMovesOrderBetweenLevels | include/arena/base_book_map.hpp:181-198 | Modifying order 2 to 101 makes it the best bid. Modifying it to (90, -6) then makes it the best ask. |
| BookMapScenarios.CancelRemovesOrders | include/arena/base_book_map.hpp:200-208 | Cancelling the only bid and then the only ask succeeds, and leaves both sides empty. |
| BookMapScenarios.SharedPriceLeavesOrderUnindexed | include/arena/base_book_map.hpp:32-41 | Two bids at one price both place, but only the first is indexed. After it is cancelled, there is no best bid although the second is stored, and cancelling the second fails. |
| ArenaVector.Grown | include/arena/vector.hpp:160 | The grown capacity exceeds the old one and is at least 16, and it is at least one and a half times the old capacity. |
| ArenaVector.Vector.constructor | include/arena/vector.hpp:139 | A default vector holds no elements and has capacity 0. |
| ArenaVector.Vector.Copy | include/arena/vector.hpp:43-61 | The copy has the source's elements and capacity, in a fresh buffer. |
| ArenaVector.Vector.Move | include/arena/vector.hpp:27-31 | The target takes over the source's buffer and elements. The source is left empty, with capacity 0. |
| ArenaVector.Vector.Clear | include/arena/vector.hpp:100-104 | Afterwards there are no elements and the capacity is 0. |
| ArenaVector.Vector.IsEmpty | include/arena/vector.hpp:145 | True iff the vector holds no elements. |
| ArenaVector.Vector.Size | include/arena/vector.hpp:146 | The number of elements held, which never exceeds the capacity. |
| ArenaVector.Vector.Capacity | include/arena/vector.hpp:147 | The capacity is at least the size. |
| ArenaVector.Vector.Front | include/arena/vector.hpp:148 | The first element. |
| ArenaVector.Vector.Back | include/arena/vector.hpp:149 | The last element. |
| ArenaVector.Vector.Reallocate | include/arena/vector.hpp:106-122 | Moves to a fresh buffer of the requested capacity, keeping the size and the elements in order. |
| ArenaVector.Vector.PopBack | include/arena/vector.hpp:151-156 | Does nothing when empty. Otherwise drops the last element and keeps the others and the buffer. |
| ArenaVector.Vector.PushBack | include/arena/vector.hpp:158-163 | The elements become the old ones plus the item. A full buffer is first replaced by one of the grown capacity; otherwise the buffer is kept. The size stays within the capacity. |
| ArenaVector.Vector.AssignAsWritten | include/arena/vector.hpp:63-90 | Copy assignment as written. The resulting size is 0 when the buffer had to be replaced, and otherwise the smaller of the old size and the source's. The target holds that many of the source's leading elements. |
| ArenaVector.Vector.Assign | include/arena/vector.hpp:63-90 | Corrected copy assignment: the target holds exactly the source's elements, and keeps its buffer when that is large enough. |
| VectorScenarios.Default | include/arena/vector.hpp:174-179 | A default vector is empty, with size and capacity 0. |
| VectorScenarios.Push | include/arena/vector.hpp:181-189 | After one push: size 1, positive capacity, and the item is both front and back. |
| VectorScenarios.PushPush | include/arena/vector.hpp:191-200 | After two pushes: size 2, the first item at the front and the second at the back. |
| VectorScenarios.PushPop | include/arena/vector.hpp:202-209 | A push then a pop leaves the vector empty, with positive capacity. |
| VectorScenarios.PushPushCopy | include/arena/vector.hpp:211-226 | After copy construction, source and copy both hold the two items in order, and both have positive capacity. |
| VectorScenarios.PushPushMove | include/arena/vector.hpp:228-241 | After move construction the target holds the two items, and the source is empty with capacity 0. |
| VectorScenarios.AssignAsWrittenLosesItems | include/arena/vector.hpp:76-85 | Copy-assigning a one-item vector to an empty one, as written, leaves the target with size 0. |
| VectorScenarios.AssignCopiesItems | include/arena/vector.hpp:63-90 | The corrected assignment gives the empty target the source's single item. |
| Probe.Advance | include/arena/probe.hpp:20-25 | The next counter value stays below the pool size when the old one was, and equals the old one plus 1 modulo the size. |
| Probe.RotationIsMod | include/arena/probe.hpp:8-12 | On a non-empty pool, the counter after k calls from 0 is k modulo the pool size. |
| Probe.ModOfSucc | include/arena/probe.hpp:22-23 | Proof helper, arithmetic about `%` used by `RotationIsMod`: the remainder of k + 1 is one more than that of k, wrapping to 0 at the modulus. |
| Probe.RoundRobinPolicy.constructor | include/arena/probe.hpp:17 | The counter starts at 0. |
| Probe.RoundRobinPolicy.NextIndex | include/arena/probe.hpp:20-25 | Returns the current index and advances it by one, wrapping to 0 on reaching the size. |
| Probe.LoadBalancer.constructor | include/arena/probe.hpp:33 | No resources, and a fresh policy at 0; the in-bounds invariant holds. |
| Probe.LoadBalancer.AddResource | include/arena/probe.hpp:35 | Appends the item and leaves the policy alone; the in-bounds invariant is kept. |
| Probe.LoadBalancer.GetResource | include/arena/probe.hpp:37-41 | With no resources: none, and the index does not move. Otherwise the index read is in bounds, the resource there is returned, and the index advances with wrap-around. |
| Probe.GetMany | include/arena/probe.hpp:8-12 | Starting from a fresh policy, the j-th of `count` calls returns the resource at j modulo the pool size. |
| ProbeScenarios.RoundRobin | include/arena/probe.hpp:49-58 | After adding 1, 2 and 3, four calls return 1, 2, 3, 1. |
| ProbeScenarios.RoundRobinByRotation | include/arena/probe.hpp:49-58 | The same four results, derived from the modulo law. |
| ProbeScenarios.GetFromEmpty | include/arena/probe.hpp:60-64 | An empty balancer returns none. |

## Left out

- Benchmark blocks, random generators and timing are left out, because they measure speed and are not behaviour.
- Allocator plumbing, raw allocation and destruction, and the exception rollbacks in `detail::vector_buffer` are left out. A buffer is a Dafny array, an absent buffer is an array of length 0, and nothing throws.
- The move assignment of `vector_buffer` (include/arena/vector.hpp:33-41) is not modelled, nor is the vector's defaulted move assignment that uses it; no documented scenario assigns by move.
- Widths of `size_t`, `uint64_t` and `int64_t` are not modelled: `nat` and `int` are unbounded, so `capacity*3/2+16` cannot wrap. The books do no arithmetic on ids or prices.
- src/main.cpp (console input and output), include/arena/arena.hpp and the placeholder tests are not part of this model. test/vector.test.hpp repeats the inline vector tests modelled in `VectorScenarios`.
- `LoadBalancer` is modelled with `RoundRobinPolicy` only, not with an arbitrary policy type.
- Hash-table and red-black-tree internals and their complexity are not modelled. The store is a `map`, each price index is a `map`, and the first key of an index is computed as its maximum (bids) or minimum (asks).
- BookMap.BaseBookMap.RemoveFromBook: the `equal_range` loop is modelled as one lookup, because a `std::map` holds at most one entry per key, so the range has at most one element.
- BookMap.BaseBookMap.Place and BookMap.BaseBookMap.Modify: the rollback after a failed `add_to_book` is proved unreachable, because `add_to_book` always returns true. The rollback's effect is not modelled.
- ArenaVector.Vector.Front and ArenaVector.Vector.Back require a non-empty vector. The source reads the buffer unchecked, which is undefined behaviour when empty.
- ArenaVector.Vector.Reallocate requires the new capacity to hold the current elements. Its only caller grows the buffer.
- ArenaVector.Vector.AssignAsWritten and ArenaVector.Vector.Assign require distinct source and target: self-assignment is not modelled.
- BookVector.BaseBookVector.Cancel keeps the source's failure branches for a missing level or id. Consistency makes them unreachable, so its contract states success for every stored id and does not describe them.

## Findings

| source | as written | input that shows it | evidently intended | confidence | as-written member | corrected member |
|---|---|---|---|---|---|---|
| include/arena/vector.hpp:76-85 | When the target has fewer elements than the source, the tail is constructed but `size` is never raised to `other.size`. After a buffer replacement at 65-70, `size` is 0, so nothing at all counts as copied. | Copy-assigning a one-item vector to a default (empty) one leaves the target with size 0. | The target's size becomes the source's, so it holds exactly the source's elements. | high, not executed | ArenaVector.Vector.AssignAsWritten, VectorScenarios.AssignAsWrittenLosesItems | ArenaVector.Vector.Assign, VectorScenarios.AssignCopiesItems |
