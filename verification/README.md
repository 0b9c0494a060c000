# A verified model of the hft-engine matching core

This project models, in Dafny 4.11, the parts of hft-engine whose behaviour is decided by loops,
shared state or interleavings, and proves what they guarantee.

| files | what they model |
|---|---|
| `Bits`, `Ring`, `Options`, `Sequences` | power-of-two masks and ring arithmetic, and two small shared definitions |
| `SpscQueue`, `SpscProtocol`, `SpscCalls` | the single-producer single-consumer ring, as an object and as two interleaved threads |
| `MpscQueue`, `MpscCalls` | the linked multi-producer single-consumer queue, any number of producers, step by step |
| `HazardPointers`, `HazardScan` | hazard-pointer publication, retirement, scan and reclamation, step by step |
| `PriceLadder` | the flat sorted vector of price levels |
| `Matching`, `SellSide` | the two matching loops |
| `BookModel`, `BookReturns`, `BookSafety`, `BookPrices`, `BookWrap`, `BookSplit`, `BookTwins`, `BookIndex`, `BookPool`, `BookExhaustion` | the order book as a value, and what every history of calls keeps |
| `OrderBook` | the order book object, updated in place |
| `FixMessage`, `FixMeaning`, `FixPrinter`, `Pipeline` | the FIX tag=value parser, its printer, and the way from the wire to the book |

`dafny verify dfyconfig.toml` checks everything.

**How the concurrent parts are modelled.** Every atomic load, store, exchange, allocation and delete
is one step of a total function on a state value. A schedule is a list of moves and a run is the fold
of the step function over it, so a statement about every schedule is a statement about every
interleaving of the steps. Fields named as auxiliary in the comments record history; no step reads
them.

**How the book is modelled.** `BookModel.Apply` is one call of `add_order` or `cancel_order` on a
value, with `Spins` as its result when a matching loop never returns. The class `OrderBook.OrderBook`
is proved to move as `Apply` says. Theorems about whole histories are about `BookModel.Run`, which
starts from the constructed book. The callback's reports are appended to a log.

**Where the code differs from what its text suggests**, the code is followed:

- A level's 64-bit total is cut to 32 bits before it is compared with the quantity wanted, so a
  reachable level of 2^32 or more can make a matching loop run forever. `BookReturns.HistoryThatSpins`
  gives the calls, `Matching.BuyLoopEndsIff` and `SellSide.SellLoopEndsIff` the exact condition for one
  loop and `BookReturns.HistoryReturnsIff` that for a whole history.
- `cancel_order` never takes the cancelled quantity off its level. It changes a ladder exactly when
  the level of its order is empty, which happens only after a level's 64-bit total has wrapped
  (`BookSafety.CancelChangesNoLadder`).
- Since cancels give back slots but no depth, a long enough history of 32-bit quantities wraps a
  level's 64-bit total. `BookWrap.WrapIsReachable` gives the history, and
  `BookSafety.ConservedIffNothingWraps` says that quantity is conserved exactly when that never
  happened. Order and the gap between the sides hold regardless (`BookSafety.HistoryKeeps`).
- `cancel_order` leaves the id and the slot as they are, so cancelling an order twice
  (`BookPool.CancelledTwice`), or one filled on entry (`BookPool.CancelledAfterFill`), puts a slot
  into the free list twice. `BookPool.CancelKeepsPartitionIff` says exactly when a cancel does.
- An order that rested and was traded out later keeps its pool slot for good, since only the order
  that arrives gives one back. `BookExhaustion.TradedOrdersKeepTheirSlots` gives a history after which
  every add is refused with one order in the book, `BookExhaustion.RefusedIffAllHeld` says exactly when
  adds are refused, and `BookExhaustion.ExhaustedShowsDepth` that the book is never empty then.
- The free list's ring holds one item fewer than its capacity, so the constructor's last push fails
  and the last pool slot is never used.
- A hazard pointer published after a scan has passed its slot protects nothing from that scan
  (`HazardPointers.LatePublicationIsDeleted`), one published before the scan began does
  (`HazardPointers.HeldPointerIsNeverDeleted`), and `HazardScan.ScanDeletesIffNotFound` says exactly
  which pointers a scan deletes.
- Prices with more than four digits after the point are not scaled down (`FixMeaning.TicksExactIff`).

## Model

| member | source | states |
|---|---|---|
| Bits.PowerOfTwoIff | 1_orderbook/include/spsc_queue.hpp:15 | the class constraint's bit test holds exactly of the powers of two |
| Bits.MaskIsRemainder | 1_orderbook/include/spsc_queue.hpp:51 | for every power of two, masking with `c - 1` is the remainder by `c` |
| Bits.MaskedDifferenceIsDistance | 1_orderbook/include/spsc_queue.hpp:44-48 | the masked 64-bit difference of two positions is the forward distance around the ring, also when the subtraction wraps |
| Ring.AdvanceWraps | 1_orderbook/include/spsc_queue.hpp:22 | adding one and masking is the next place of the ring |
| SpscQueue.SpscQueue.constructor | 1_orderbook/include/spsc_queue.hpp:18 | a new ring is empty |
| SpscQueue.SpscQueue.Push | 1_orderbook/include/spsc_queue.hpp:20-28 | succeeds exactly when fewer than capacity - 1 items are queued, and then appends the item; otherwise nothing changes |
| SpscQueue.SpscQueue.Pop | 1_orderbook/include/spsc_queue.hpp:30-37 | answers with the oldest item and removes it, or says there is none |
| SpscQueue.SpscQueue.Empty | 1_orderbook/include/spsc_queue.hpp:39-42 | true exactly when nothing is queued |
| SpscQueue.SpscQueue.Size | 1_orderbook/include/spsc_queue.hpp:44-48 | the number of queued items |
| SpscProtocol.StepRefines | 1_orderbook/include/spsc_queue.hpp:20-37 | every load, array access and store of either thread keeps the protocol invariant and moves the abstract queue as a FIFO of capacity - 1 would |
| SpscProtocol.RunRefines | 1_orderbook/include/spsc_queue.hpp:20-37 | the same for every schedule, from every state that satisfies the invariant |
| SpscProtocol.Linearizable | 1_orderbook/include/spsc_queue.hpp:20-37 | under every schedule the completed calls, each placed at one of its own steps, are a history of a FIFO of capacity - 1; push fails only if full at its tail load, pop only if empty at its head load |
| SpscProtocol.NoSlotRace | 1_orderbook/include/spsc_queue.hpp:25-34 | under every schedule the slot about to be written is not the slot about to be read |
| SpscProtocol.FifoConserves | 1_orderbook/include/spsc_queue.hpp:20-37 | in every FIFO history the initial items and those pushed are those popped and those left, in order |
| SpscProtocol.NothingLostOrReordered | 1_orderbook/include/spsc_queue.hpp:20-37 | under every schedule the items pushed are the items popped followed by the items still queued |
| SpscCalls.PushEndsWithAnswer | 1_orderbook/include/spsc_queue.hpp:20-28 | a step ends a push exactly when it reports that push, with its own item or as failed |
| SpscCalls.PopEndsWithAnswer | 1_orderbook/include/spsc_queue.hpp:30-37 | a step ends a pop exactly when it reports that pop, with the oldest item or as failed |
| SpscCalls.FullPushFails | 1_orderbook/include/spsc_queue.hpp:22-24 | at its load of the tail a push answers false if and only if the ring is full |
| SpscCalls.EmptyPopFails | 1_orderbook/include/spsc_queue.hpp:31-33 | at its load of the head a pop answers with nothing if and only if the ring is empty |
| SpscCalls.PushDelivers | 1_orderbook/include/spsc_queue.hpp:20-28 | a push begun with room answers true with its third further step and has queued its item last, whatever and however many moves of the consumer lie between |
| SpscCalls.PopDelivers | 1_orderbook/include/spsc_queue.hpp:30-37 | a pop begun with items delivers the one that was oldest then with its third further step, whatever moves of the producer lie between |
| MpscQueue.StepKeeps | 1_orderbook/include/mpsc_queue.hpp:40-57 | every step of every thread keeps the queue's invariant and touches no dead node |
| MpscQueue.RunKeeps | 1_orderbook/include/mpsc_queue.hpp:40-57 | so does every schedule |
| MpscQueue.InitInv | 1_orderbook/include/mpsc_queue.hpp:21-25 | the constructed queue, one stub that head and tail share, satisfies the invariant |
| MpscQueue.PoppedInExchangeOrder | 1_orderbook/include/mpsc_queue.hpp:40-57 | under every interleaving the values popped are a prefix of the values pushed in the order of the tail exchanges |
| MpscQueue.ProducerOrderKept | 1_orderbook/include/mpsc_queue.hpp:40-57 | under every interleaving what has been popped of one producer's items is a prefix of the items in the order that producer issued them |
| MpscQueue.NoDeadAccess | 1_orderbook/include/mpsc_queue.hpp:40-57 | no step of any interleaving touches a freed node; head, tail and the `prev` of a producer between its exchange and its link are live, and that `prev` is not linked yet |
| MpscQueue.EmptyAnswer | 1_orderbook/include/mpsc_queue.hpp:47-51 | in every reachable state pop answers "empty" exactly when everything pushed has been popped or the next value's producer stands between its exchange and its link |
| MpscQueue.ReturnedPushIsHidden | 1_orderbook/include/mpsc_queue.hpp:40-51 | for all values and addresses a schedule in which a push has returned and a later pop answers "empty", because an earlier producer has not linked yet |
| MpscQueue.DeletedOnlyWhenLinked | 1_orderbook/include/mpsc_queue.hpp:40-56 | in every reachable state the node about to be deleted has its link stored, and no suspended producer has a store into it to come |
| MpscCalls.ExchangeEnqueues | 1_orderbook/include/mpsc_queue.hpp:42 | the exchange puts the producer's item behind all others in the push order |
| MpscCalls.LinkReturns | 1_orderbook/include/mpsc_queue.hpp:43 | the link makes the node reachable from its predecessor and ends the push |
| MpscCalls.PushReturns | 1_orderbook/include/mpsc_queue.hpp:40-44 | whatever the other threads do before and between, a producer's two steps put its item into the push order, link it and end the call |
| MpscCalls.PushBegins | 1_orderbook/include/mpsc_queue.hpp:41 | a push begins with a new live node that holds its item |
| MpscCalls.DeleteEndsPop | 1_orderbook/include/mpsc_queue.hpp:55-56 | the last step of a pop takes exactly the old head out of the heap, counts one node freed and ends the call |
| MpscCalls.PopReturns | 1_orderbook/include/mpsc_queue.hpp:47-57 | a pop begun when the oldest value's link is stored delivers that value, frees the old head and ends with its fourth further step, whatever the producers do meanwhile |
| MpscCalls.QuiescentPopDelivers | 1_orderbook/include/mpsc_queue.hpp:47-57 | with no thread inside a call, a pop delivers the oldest value not yet popped, frees exactly the old head and leaves the queue at rest |
| MpscCalls.DrainDelivers | 1_orderbook/include/mpsc_queue.hpp:47-57 | from rest, as many pops as there are values left deliver all values ever pushed, in order, and leave one live node |
| MpscQueue.Destroy | 1_orderbook/include/mpsc_queue.hpp:27-34 | run when no thread is inside a call, the destructor meets no freed node and leaves none alive; over the queue's lifetime every allocated node is freed exactly once |
| MpscQueue.DeleteFrom | 1_orderbook/include/mpsc_queue.hpp:28-33 | walking a list that links the whole heap deletes every node of it, each once |
| HazardPointers.StepKeeps | 1_orderbook/include/hazard_pointers.hpp:26-80 | every step of the readers and the reclaimer keeps the scan, reader and accounting invariants |
| HazardPointers.RunKeeps | 1_orderbook/include/hazard_pointers.hpp:26-80 | so does every schedule |
| HazardPointers.HeldPointerIsNeverDeleted | 1_orderbook/include/hazard_pointers.hpp:26-80 | under every schedule a retired pointer that some slot holds while no scan is under way, and after every later step, stays pending and is not deleted, also when it was published after its retire |
| HazardPointers.HeldSinceRetireIsNeverDeleted | 1_orderbook/include/hazard_pointers.hpp:44-80 | the same from the retire call on, also when that call begins a scan itself |
| HazardPointers.RetiredOnceDeletedOnce | 1_orderbook/include/hazard_pointers.hpp:44-80 | under every schedule the pointers deleted and those pending are together exactly those retired, counted with multiplicity, and none is pending twice |
| HazardPointers.AcquireNeverOverwrites | 1_orderbook/include/hazard_pointers.hpp:26-40 | under every schedule acquire stores only into a slot that holds nothing |
| HazardPointers.LatePublicationIsDeleted | 1_orderbook/include/hazard_pointers.hpp:54-80 | for every pointer and any number of threads there is a schedule that deletes the pointer while a slot holds it, published after the scan passed that slot |
| HazardScan.ScanDeletesIffNotFound | 1_orderbook/include/hazard_pointers.hpp:54-80 | whatever the other threads do meanwhile, a scan deletes a retired pointer if and only if none of the loads of its row finds it, and keeps the others, both in order |
| HazardScan.UninterruptedScan | 1_orderbook/include/hazard_pointers.hpp:54-80 | the interleaved steps, run by the reclaimer alone, keep the published pointers and delete all others, in order |
| HazardScan.UninterruptedRetire | 1_orderbook/include/hazard_pointers.hpp:44-51 | run alone, retire queues its pointer below the threshold, and from there on leaves exactly the published pointers queued and deletes the rest |
| HazardScan.SecondRetireDeletesBoth | 1_orderbook/include/hazard_pointers.hpp:17-51 | with neither pointer published, one retire deletes nothing and the second deletes both |
| HazardScan.SixteenPlaces | 1_orderbook/include/hazard_pointers.hpp:18-22 | a new domain has sixteen places for every thread, all free |
| HazardScan.UninterruptedAcquire | 1_orderbook/include/hazard_pointers.hpp:26-33 | run alone, acquire publishes its pointer in the first free slot of its thread's block and touches nothing else, and does nothing when the block is full |
| HazardScan.FirstFree | 1_orderbook/include/hazard_pointers.hpp:98-106 | the place found is free and every earlier one is taken |
| HazardScan.ReleaseUndoesAcquire | 1_orderbook/include/hazard_pointers.hpp:36-40 | releasing the slot acquire took gives back the slots as they were |
| HazardScan.ScanAndReclaim | 1_orderbook/include/hazard_pointers.hpp:54-80 | with no store in between, the scan keeps the published pointers and deletes the others, both in order |
| PriceLadder.LowerBoundUnique | 1_orderbook/include/price_level.hpp:28-31 | only the lower bound has smaller prices before it and none smaller at it |
| PriceLadder.LookupIsFind | 1_orderbook/include/price_level.hpp:27-35 | in a sorted ladder the lower bound holds a price exactly when the map does, and then holds the map's level |
| PriceLadder.UpsertRefines | 1_orderbook/include/price_level.hpp:47-61 | upsert keeps the ladder sorted and is add-or-insert on the map |
| PriceLadder.UpsertFields | 1_orderbook/include/price_level.hpp:53-60 | at its price an upsert adds to the total modulo 2^64 and one to the order count modulo 2^32, or enters the quantity with count one; no other price changes |
| PriceLadder.RemoveRefines | 1_orderbook/include/price_level.hpp:63-71 | remove-if-empty keeps the ladder sorted and deletes exactly a zero entry from the map |
| PriceLadder.ReduceRefines | 1_orderbook/src/order_book.cpp:81-82 | reducing a level's total in place keeps the ladder sorted and reduces that entry of the map |
| PriceLadder.EndsAreExtremes | 1_orderbook/include/price_level.hpp:73-79 | worst and best are the smallest and the largest key of the map |
| PriceLadder.MapDeterminesLadder | 1_orderbook/include/price_level.hpp:16-21 | two sorted ladders that stand for the same map are equal |
| PriceLadder.ReplayRefines | 1_orderbook/include/price_level.hpp:47-71 | after every sequence of upserts, in-place reductions and removals the ladder is sorted and stands for the map those operations build |
| PriceLadder.FlatPriceLadder.Search | 1_orderbook/include/price_level.hpp:28-31 | the binary search finds the lower bound |
| PriceLadder.FlatPriceLadder.Find | 1_orderbook/include/price_level.hpp:27-35 | answers as lookup in the map does |
| PriceLadder.FlatPriceLadder.Upsert | 1_orderbook/include/price_level.hpp:47-61 | the vector becomes the upserted ladder and stays sorted |
| PriceLadder.FlatPriceLadder.RemoveIfEmpty | 1_orderbook/include/price_level.hpp:63-71 | the vector becomes the pruned ladder and stays sorted |
| PriceLadder.FlatPriceLadder.Best | 1_orderbook/include/price_level.hpp:73-75 | the level of the highest price, none exactly when there are no levels |
| PriceLadder.FlatPriceLadder.Worst | 1_orderbook/include/price_level.hpp:77-79 | the level of the lowest price, none exactly when there are no levels |
| Matching.BuyLoopEndsIff | 1_orderbook/src/order_book.cpp:70-86 | the buy loop ends if and only if the quantity stays within the depth in front of every reachable level of 2^32 or more plus that level's total cut to 32 bits |
| Matching.SpinsOnWideLevel | 1_orderbook/src/order_book.cpp:70-86 | two resting orders of 2^31 at one price make the loop run forever for every quantity |
| Matching.EndsWithinCrossable | 1_orderbook/src/order_book.cpp:70-86 | a loop that ends does so within as many turns as there are levels within the limit, and computes the sweep |
| Matching.OtherwiseNeverEnds | 1_orderbook/src/order_book.cpp:70-86 | outside that condition no number of turns ends the loop |
| Matching.SweepFills | 1_orderbook/src/order_book.cpp:70-86 | the fills add up to the smaller of the quantity and what rests at the limit or better; they leave the ladder, and an unfilled rest means nothing is left within the limit |
| Matching.SweepHasShape | 1_orderbook/src/order_book.cpp:76-83 | the fills go through the levels from the front at each level's own price within the limit, all but the last touched level are used up, and the others are as before |
| Matching.SweepLeavesLevels | 1_orderbook/src/order_book.cpp:81-83 | a buy changes no price and no order count of a level it leaves, and no total but the front one's |
| Matching.SweepKeepsOrder | 1_orderbook/src/order_book.cpp:70-86 | matching keeps the ladder sorted and positive, and fill prices climb strictly |
| Matching.FrontIsCheapest | 1_orderbook/src/order_book.cpp:70-86 | taking a quantity from the front of a sorted ladder costs no more than any other selection of it |
| Matching.BuyIsOptimal | 1_orderbook/src/order_book.cpp:70-86 | no selection of the filled quantity from the resting levels is cheaper than the fills |
| Matching.SweepSplits | 1_orderbook/src/order_book.cpp:70-86 | sweeping for a and then for b leaves the ladder, the remainder and the quantity per price of one sweep for a + b |
| Matching.SellTurnMirrors | 1_orderbook/src/order_book.cpp:88-103 | one turn of the sell loop is the mirror of a turn of the buy loop on the mirrored ladder |
| Matching.SellRunMirrors | 1_orderbook/src/order_book.cpp:70-103 | negating prices and reversing the ladder turns every run of one loop into a run of the other, also when it does not end |
| SellSide.SellLoopEndsIff | 1_orderbook/src/order_book.cpp:88-103 | the sell loop ends if and only if the quantity stays within the depth above every reachable bid of 2^32 or more plus that bid's total cut to 32 bits |
| SellSide.SellRunIsSweep | 1_orderbook/src/order_book.cpp:88-103 | a sell loop that ends does so within the number of crossable levels and computes the sell sweep |
| SellSide.SellFills | 1_orderbook/src/order_book.cpp:88-103 | the fills add up to the smaller of the quantity and what is bid at the limit or better; they leave the ladder, and an unfilled rest means nothing is left within the limit |
| SellSide.SellKeepsOrder | 1_orderbook/src/order_book.cpp:88-103 | matching keeps the bids sorted and positive, fill prices fall strictly and stay within the limit |
| SellSide.SellHasShape | 1_orderbook/src/order_book.cpp:94-100 | the fills go through the bids from the back at each level's own price within the limit, all but the last touched level are used up, and the others are as before |
| SellSide.SellLeavesLevels | 1_orderbook/src/order_book.cpp:98-100 | a sell changes no price and no order count of a bid it leaves, and no total but the highest one's |
| SellSide.SellIsOptimal | 1_orderbook/src/order_book.cpp:88-103 | no selection of the filled quantity from the bids brings more than the fills |
| SellSide.SellSplits | 1_orderbook/src/order_book.cpp:88-103 | sweeping the bids for a and then for b does what one sweep for a + b does |
| BookModel.ApplyEffect | 1_orderbook/src/order_book.cpp:19-68 | what a call that reports an event did to the pool, the index and the free list, and that it touched no other slot |
| BookModel.AddSettles | 1_orderbook/src/order_book.cpp:46-67 | an add that finds a slot returns exactly when matching does, and then the book shows the sweep with its leftover resting at the order's price |
| BookSafety.AddRestsIff | 1_orderbook/src/order_book.cpp:28-67 | an add that finds a slot and returns leaves its order resting if and only if its quantity exceeds what rests opposite at its limit or better; the slot then holds what is left of it, and otherwise is back in the free list |
| BookSafety.IdsUsed | 1_orderbook/src/order_book.cpp:21 | every add uses up one id, refused and cancelling ones too; a cancel uses none |
| BookReturns.CallReturnsIff | 1_orderbook/src/order_book.cpp:19-122 | on sorted ladders a call returns if and only if it is no add that reaches past a level of 2^32 or more |
| BookReturns.HistoryReturnsIff | 1_orderbook/src/order_book.cpp:19-122 | a whole history returns if and only if each of its calls meets such a book |
| BookReturns.SmallHistoriesReturn | 1_orderbook/src/order_book.cpp:19-122 | every history whose quantities add up to less than 2^32 returns |
| BookReturns.HistoryThatSpins | 1_orderbook/src/order_book.cpp:70-86 | for every price, quantity and pool of at least four orders, two asks of 2^31 make the next bid at their price never return |
| BookSafety.SettledKeeps | 1_orderbook/src/order_book.cpp:46-65 | matching and resting keeps both ladders sorted and uncrossed, and adds exactly the order's quantity to depth plus twice the fills, less 2^64 for every wrap of the level it rests on |
| BookSafety.SettledPositiveIff | 1_orderbook/src/order_book.cpp:60-65 | on positive ladders it keeps them positive if and only if the leftover does not bring its level's total to a multiple of 2^64 |
| BookSafety.HistoryKeeps | 1_orderbook/src/order_book.cpp:19-122 | over every history both ladders are strictly sorted and every bid is below every ask; the accepted quantity equals both depths plus twice the reported fills plus 2^64 for every wrap, and while nothing wrapped all totals are positive |
| BookSafety.ConservedIffNothingWraps | 1_orderbook/src/order_book.cpp:46-65 | over every history accepted quantity equals both depths plus twice the fills if and only if no level's total wrapped |
| BookSafety.SmallHistoriesNeverWrap | 1_orderbook/include/price_level.hpp:54 | nothing wraps while the quantities offered add up to less than 2^64 |
| BookPrices.EachPriceBalances | 1_orderbook/src/order_book.cpp:46-103 | over every history, on each side and at each price, what came to rest is what the ladder shows there plus what was traded from there plus 2^64 for every wrap of that level; the fills reported at a price are those taken from the two sides there |
| BookPrices.TotalAtIsLevel | 1_orderbook/include/price_level.hpp:27-35 | in a sorted ladder the quantity shown at a price is the total of its one level |
| BookWrap.WrapIsReachable | 1_orderbook/include/price_level.hpp:54 | for every price and pool a history of 32-bit quantities after which the only bid has total 0, nothing was traded and the accepted quantity is lost |
| BookSafety.SpreadIsTightest | 1_orderbook/include/order_book.hpp:47-53 | on sorted ladders the spread exists exactly when both sides do and is the smallest gap between any bid and any ask |
| BookSafety.SpreadIsPositive | 1_orderbook/include/order_book.hpp:47-53 | after every history the spread is at least one tick whenever both sides exist |
| BookSafety.CancelChangesLadderIff | 1_orderbook/src/order_book.cpp:105-122 | on sorted ladders a cancel reports no fill and changes a ladder if and only if it finds its order and that order's level is empty |
| BookSafety.CancelChangesNoLadder | 1_orderbook/src/order_book.cpp:105-122 | the same after every history, and no cancel does so while nothing has wrapped |
| BookSplit.SplitIsInvisible | 1_orderbook/src/order_book.cpp:19-103 | adding q and then r leaves the prices and totals on both ladders, and the filled quantity per price, of adding q + r; if the whole returns so do the parts |
| BookSplit.SplitReturnsIff | 1_orderbook/src/order_book.cpp:19-103 | the add of q + r returns if and only if the adds of q and then of r both do |
| BookTwins.TwinsStay | 1_orderbook/src/order_book.cpp:19-122 | two books with the same prices and totals return or spin together on every later list of calls that finds slots and empties no level, report the same fills and keep the same prices and totals |
| BookTwins.SplitStaysInvisible | 1_orderbook/src/order_book.cpp:19-122 | so a split leaves the same prices, totals and filled quantity per price after every such list of calls |
| BookIndex.HistoryIndexed | 1_orderbook/src/order_book.cpp:21-44 | over every history the index holds the slot of the newest id of each residue and the pool the newest id of each slot |
| BookIndex.CancelSucceedsIff | 1_orderbook/src/order_book.cpp:105-112 | after every history a cancel succeeds exactly when its id is the newest allocated one of its residue class and the newest occupant of its slot |
| BookIndex.StrangersAlwaysMiss | 1_orderbook/src/order_book.cpp:105-112 | id 0 and ids never allocated always miss, and the book stays as it was |
| BookPool.StepOnPartition | 1_orderbook/src/order_book.cpp:28-58 | a call keeps the partition of the slots if and only if it is not a successful cancel of an order that is not resting while others rest |
| BookPool.HistorySlots | 1_orderbook/src/order_book.cpp:13-16 | over every history no slot beyond MAX_ORDERS - 2 is ever free or handed out |
| BookPool.PoolStaysPartitioned | 1_orderbook/src/order_book.cpp:6-121 | in every history whose cancels name resting orders, the free list has no duplicates and free and held slots split 0 to MAX_ORDERS - 2 |
| BookPool.NoPushFails | 1_orderbook/src/order_book.cpp:53-121 | in every such history, at every call, the push of a cancelled slot or of a slot whose order was filled on entry succeeds |
| BookPool.LiveCancelKeeps | 1_orderbook/src/order_book.cpp:119-121 | cancelling a resting order keeps the partition and its push succeeds |
| BookPool.CancelKeepsPartitionIff | 1_orderbook/src/order_book.cpp:105-121 | on a partitioned pool a cancel keeps the partition if and only if its id is not the newest of its residue class and of its slot, or its order is resting, or no order is |
| BookPool.CancelledTwice | 1_orderbook/src/order_book.cpp:105-121 | for every pool of at least four orders, two resting bids and two cancels of the first put its slot into the free list twice |
| BookPool.CancelledAfterFill | 1_orderbook/src/order_book.cpp:53-58 | so does one cancel of an order that was filled on entry |
| BookExhaustion.RefusedIffAllHeld | 1_orderbook/src/order_book.cpp:28-31 | in a disciplined history an add is refused if and only if MAX_ORDERS - 1 orders were left resting and not cancelled, traded out since or not |
| BookExhaustion.ExhaustedShowsDepth | 1_orderbook/src/order_book.cpp:53-65 | over every history with a pool of at least two, an exhausted pool means some level is in the book |
| BookExhaustion.TradedOrdersKeepTheirSlots | 1_orderbook/src/order_book.cpp:53-103 | for every price, 32-bit quantity and pool: after MAX_ORDERS - 2 asks traded out at once both ladders are empty with one slot free, and one more resting order makes every add be refused |
| OrderBook.OrderBook.constructor | 1_orderbook/src/order_book.cpp:6-17 | the book is empty and the free list holds every slot but the last |
| OrderBook.PushSlots | 1_orderbook/src/order_book.cpp:12-16 | the constructor's pushes leave slots 0 to MAX_ORDERS - 2 in the free list, in order |
| OrderBook.OrderBook.TakeAsk | 1_orderbook/src/order_book.cpp:76-83 | one turn of the buy loop: fill, report, reduce, drop the level if it is empty |
| OrderBook.OrderBook.TakeBid | 1_orderbook/src/order_book.cpp:94-100 | one turn of the sell loop |
| OrderBook.OrderBook.MatchAggressiveBuy | 1_orderbook/src/order_book.cpp:70-86 | the loop leaves the ladder, the remainder and the reports of the buy sweep |
| OrderBook.OrderBook.MatchAggressiveSell | 1_orderbook/src/order_book.cpp:88-103 | the loop leaves the ladder, the remainder and the reports of the sell sweep |
| OrderBook.OrderBook.TakeSlot | 1_orderbook/src/order_book.cpp:28-44 | the head of the free list goes to the order and into the index, or nothing changes when there is none |
| OrderBook.OrderBook.SettleOrder | 1_orderbook/src/order_book.cpp:46-67 | matching, then the slot returned or the leftover rested, as the model says |
| OrderBook.OrderBook.AddOrder | 1_orderbook/src/order_book.cpp:19-68 | the object moves as the model does, and returns 0 exactly when the pool is exhausted, else the order's id |
| OrderBook.OrderBook.CancelOrder | 1_orderbook/src/order_book.cpp:105-122 | the object moves as the model does, and returns true exactly when the model finds the order |
| OrderBook.OrderBook.BestBid | 1_orderbook/include/order_book.hpp:39-41 | the highest bid, none exactly when there are no bids |
| OrderBook.OrderBook.BestAsk | 1_orderbook/include/order_book.hpp:43-45 | the lowest ask, none exactly when there are no asks |
| OrderBook.OrderBook.SpreadTicks | 1_orderbook/include/order_book.hpp:47-53 | the smallest gap between a bid and an ask, none exactly when a side is empty |
| FixMessage.ScanTag | 2_network/src/fix_message.cpp:26-30 | stops at the first byte that is no digit, with the digits' number modulo 2^32 |
| FixMessage.ScanValue | 2_network/src/fix_message.cpp:36-43 | stops at the first SOH or the end |
| FixMessage.ConvertQuantity | 2_network/src/fix_message.cpp:62-67 | the quantity in 32-bit arithmetic, every byte taken for a digit |
| FixMessage.ConvertPrice | 2_network/src/fix_message.cpp:68-89 | all digits as one number, scaled to at least four places after the first point |
| FixMessage.ScannedField | 2_network/src/fix_message.cpp:25-43 | what the tag and value loops delimit is the first field of the rest of the buffer, and the other fields follow its SOH |
| FixMessage.ScannedNonField | 2_network/src/fix_message.cpp:32-33 | where the scan gives up, the first field is malformed |
| FixMessage.Parse | 2_network/src/fix_message.cpp:15-114 | the scanner computes what splitting on SOH and dispatching field after field gives |
| FixMeaning.ParseIsFold | 2_network/src/fix_message.cpp:24-113 | the result is a left fold over the fields before the first malformed one, valid exactly when there is no malformed one and a type was seen |
| FixMeaning.ParsedIsLastWins | 2_network/src/fix_message.cpp:46-99 | each field of the result comes from the last well-formed field that may set it, with its default when there is none |
| FixMeaning.ValidIff | 2_network/src/fix_message.cpp:106-113 | valid exactly when the buffer is not empty, every field is digits, `=` and a value, and the last one-byte value of tag 35 exists and is not zero |
| FixMeaning.TicksExactIff | 2_network/src/fix_message.cpp:68-89 | a decimal text, with a point or without, becomes exactly 10000 times its value if and only if it has at most four places or is zero |
| FixMeaning.TicksKeepOrder | 2_network/src/fix_message.cpp:68-89 | up to four places the conversion preserves and reflects order and equality of prices, with a point or without |
| FixMeaning.WholeTicks | 2_network/src/fix_message.cpp:82-86 | a text without a point becomes 10000 times its number |
| FixMeaning.TicksOfAny | 2_network/src/fix_message.cpp:68-89 | in any text bytes that are neither digits nor the first point are passed over, and the places are the digits after the first point |
| FixMeaning.QuantityIsRaw | 2_network/src/fix_message.cpp:62-67 | the quantity of any text is its number in 32 bits, every byte counted by its distance from '0' as a signed char |
| FixMeaning.ChecksumIsTwoDigits | 2_network/src/fix_message.cpp:94-98 | the checksum is its first two bytes as digits in 8 bits, a byte that is no digit counting -1 |
| FixMeaning.PriceLoopsStayBelowResult | 2_network/src/fix_message.cpp:70-87 | no intermediate value of either price loop exceeds the result, so the 64-bit loops are exact whenever the result fits |
| FixPrinter.DecimalReads | 2_network/bench/bench_fix_pipeline.cpp:14-20 | reading the printed digits of a number gives the number |
| FixPrinter.FieldReads | 2_network/bench/bench_fix_pipeline.cpp:13-28 | a printed field is well formed and reads back as its tag and value |
| FixPrinter.FieldsOfRender | 2_network/bench/bench_fix_pipeline.cpp:13-28 | splitting a printed message gives its printed fields |
| FixPrinter.ParseUndoesRender | 2_network/src/fix_message.cpp:15-114 | parsing any printed list of fields without SOH in a value dispatches exactly those fields in order |
| FixPrinter.PriceReads | 2_network/bench/bench_fix_pipeline.cpp:21-27 | the printed price converts back to the price in ticks |
| FixPrinter.PrintedOrderReads | 2_network/bench/bench_fix_pipeline.cpp:12-30 | for every id, 32-bit quantity, price and side digit, parsing the printed order gives back quantity, price, side, client id and symbol, and is valid |
| FixPrinter.TagTexts | 2_network/bench/bench_fix_pipeline.cpp:13-28 | the tag texts the printer writes literally are the decimal forms of the tags |
| FixPrinter.OrderPrintsAs | 2_network/bench/bench_fix_pipeline.cpp:13-28 | the printed order, byte for byte: its thirteen literal texts with the numbers in place, each followed by SOH |
| FixPrinter.NoLeadingZero | 2_network/bench/bench_fix_pipeline.cpp:14-27 | a printed number starts with a zero only if it is zero, and has one digit exactly below ten |
| FixPrinter.MakeFixMessage | 2_network/bench/bench_fix_pipeline.cpp:12-30 | the text built is the order's fields, each followed by SOH, and those literal bytes |
| Pipeline.PlacesOrderIff | 2_network/bench/bench_fix_pipeline.cpp:83 | a message places an order if and only if its buffer is not empty, all its fields are well formed and the last one-byte value of tag 35 is 'D' |
| Pipeline.OrderFromBuffer | 2_network/bench/bench_fix_pipeline.cpp:84-85 | the order is a buy exactly when the last non-empty value of tag 54 starts with '1', at the price and quantity of the last values of tags 44 and 38 |
| Pipeline.Feed | 2_network/bench/bench_fix_pipeline.cpp:78-86 | the book moves by the order of such a message, and not at all otherwise |
| Pipeline.PrintedOrderArrives | 2_network/bench/bench_fix_pipeline.cpp:78-86 | what arrives of a printed order is the order |
| Pipeline.PrintParseAdd | 2_network/bench/bench_fix_pipeline.cpp:12-86 | printing, parsing and adding an order leaves the book that adding it directly leaves |

## Left out

- OrderBook.OrderBook.AddOrder: is stated for calls whose matching returns; when it does not is settled by Matching.BuyLoopEndsIff and SellSide.SellLoopEndsIff.
- OrderBook.OrderBook.MatchAggressiveBuy: asks for the exact condition under which the loop ends, since outside it there is no result to describe.
- OrderBook.OrderBook.MatchAggressiveSell: asks for the exact condition under which the loop ends, for the same reason.
- MpscQueue.Destroy: memory is a map from live addresses to nodes rather than Dafny objects, as it is throughout that module, so that reuse of a freed address can be expressed.
- HazardScan.ScanAndReclaim: works on values rather than on fields of an object; HazardScan.UninterruptedScan ties the interleaved form of the same loops to the same result.
- HazardPointers.StepKeeps: assumes one block of slots per thread, slots released inside the block, and no pointer retired while it is pending; thread-id hashing, which can give two threads one block, is not modelled.
- Weak memory: the atomics are sequentially consistent steps; no claim is made about acquire/release reordering.
- `size` and `empty` of the ring called while another thread is inside a call.
- The destructor of the hazard-pointer domain, which deletes what is still retired.
- Integer widths: level totals, order counts, tags, quantities and the checksum wrap as in the source; order ids, prices, price differences and ring lifetimes are unbounded, and quantities passed to the book may exceed 32 bits.
- `MAX_ORDERS` is any power of two below 0xFFFFFFFF rather than the source's constant.
- Timestamps, symbol ids, `filled_qty`, the ids in a match report, padding, cache lines and reserved vector capacity.
- Callbacks that call back into the book.
- `char` is taken to be signed, and the bytes of a message are given as a sequence, so the null-buffer case is the empty one.
- `total_orders`, and the `size` and `empty` of a ladder, which are one expression each.
- `verify_checksum` and conformance of the checksum value to FIX 4.2.
- AF_XDP sockets, UMEM, the BPF programs, the FPGA parser, the clock, benchmarks and scripts.
