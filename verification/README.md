# Verified model of LLOMS

LLOMS is a limit-order matching engine with a lock-free ingress pipeline. This
project models its two order books, its ring buffer, the pipeline built on it,
and its text protocol, and proves what the repository relies on and tests only
by example. `dafny verify dfyconfig.toml` checks everything.

The reading order is that of the layers.

* `Book.dfy` is the simple form of the engine: each side of the book is one queue
  in priority order, an incoming order consumes the opposite queue from the front.
  `Matching.dfy`, `Queues.dfy`, `Runs.dfy` and `Laws.dfy` say what that means:
  which makers are hit and for how much, price-time priority, conservation, an
  uncrossed book, undoing and exchanging operations. `Outcomes.dfy` says, in prices
  and quantities alone, what each operation answers and does.
* `Levels.dfy` and `Index.dfy` relate a price map of queues, and an order index, to
  the flat queue. `StlOrderBook.dfy` is the list-based engine.
* `PoolShape.dfy` describes slots of one array threaded into a free list and one
  doubly linked list per level. `PoolNodes.dfy` holds the private helpers of the
  pooled engine, `PoolAnatomy.dfy` what whole operations do to its anatomy (free
  list, levels, queues, index), `PoolOrderBook.dfy` the engine, `PoolInvariant.dfy`
  what the invariant says about single slots and links.
* `Differential.dfy` drives both engines through any sequence of operations.
* `Words.dfy`, `SpscMachine.dfy`, `SpscSafety.dfy`, `SpscWrap.dfy` and
  `SpscQueue.dfy` are the ring buffer: as a machine whose single loads, stores, slot
  reads and slot writes interleave, with unbounded and with 64-bit counters, and as
  a class over an array. `SpscCalls.dfy` says that every call has its effect, once.
* `Pipeline.dfy` is the matching thread between two bounded queues, whatever the
  other side does; `RingPipeline.dfy` takes it apart into the steps of two ring
  buffers, and `RingDrain.dfy` says there when shutdown leaves nothing behind.
  `Progress.dfy` says when the waits of the gateway's two threads for each other end,
  and `RingProgress.dfy` and `RingWaits.dfy` say it on the ring buffers.
  `OpenLoop.dfy` and `ClosedLoop.dfy` add the benchmark's producers, `RingOpenLoop.dfy`
  and `RingClosedLoop.dfy` take these apart in the same way, `ClosedLoopProgress.dfy`,
  `RingOpenLoopProgress.dfy` and `RingClosedLoopProgress.dfy` show that the loops can
  always end, and `Benchmark.dfy` puts them on the order book.
* `Text.dfy`, `Protocol.dfy` and `Gateway.dfy` are lines, tokens and numbers, commands
  and responses, and the gateway's command path. `Grammar.dfy` says which lines are
  which commands, `Admission.dfy` what becomes of every line, and `Responses.dfy` what
  a client reads in answer.

Integer widths are explicit: prices, ids, timestamps, queue counters and sequence
numbers are 64-bit, quantities, level counts and slot indices 32-bit, with
wrap-around where the code can wrap. Inputs from outside the code (clock readings,
what a move leaves behind in a slot, batch sizes, the order of thread steps, the
chunks a socket delivers) are parameters that the theorems range over.

Where code and documentation differ, the code is modelled:

* The command format is documented as `[LIMIT|MARKET]`; the parser takes any other
  sixth token for a limit order (`Protocol.TypeIsRead`, `Protocol.AnySixthWord`; a
  concrete line is in `Protocol.IocIsALimitOrder`). It also takes `B` and `S` for the
  sides, zeros in front of numbers, and further words after a command
  (`Grammar.NewExactlyWhen`, `Grammar.CancelExactlyWhen`, `Grammar.FlushExactlyWhen`).
* `volume_at_price` is one observer in two engines, but the pool's cached value is
  not reduced by trades. `Differential.Compare` states exactly when the two agree
  and `Differential.CacheMayDrift` gives the smallest run on which they do not.
* When the matching thread has left its loop, all pushed messages were executed if
  and only if no push took effect after the emptiness check that let it leave
  (`Pipeline.DrainedExactlyWhen`, on the ring buffers `RingDrain.DrainedExactlyWhen`);
  a push between the stop flag and that check does no harm. The benchmarks set the
  flag after their last push, so nothing is left behind (`Pipeline.DrainOnExit`); the
  gateway does not, and a message can be left behind (`Pipeline.MayStrand`).
* Stopping is documented as draining (`src/tcp_server.cpp:121-127`). The network thread
  collects no responses while it waits for the matching thread, and 64 at most
  afterwards: `Progress.JoinReturns` and `Progress.FinalDrain` state exactly when the
  wait ends and when everything is delivered. `Progress.SpinEnds` does the same for
  the network thread's spinning push, and `Progress.MayBlock` gives a run on which
  neither wait ends. `RingWaits.JoinReturns` and `RingWaits.SpinEnds` say it of single
  loads and stores.

## Model

| member | source | states |
|---|---|---|
| `Matching.GreedyIsFill` | src/stl_order_book.cpp:62-103 | the matching loops produce the fill price-time priority calls for: maker `k` is hit exactly when the makers ahead cannot fill the taker, for the smaller of its size and what is missing; only the last hit maker survives; the total is the smaller of the taker's quantity and all crossing liquidity |
| `Matching.FillIsUnique` | src/stl_order_book.cpp:105-146 | no other trades, leftovers and taker satisfy that description |
| `Matching.TradeNumber` | src/pool_order_book.cpp:132-154 | every trade is positive, at its maker's price, and all but the last take their maker whole |
| `Queues.GreedyConserves` | src/pool_order_book.cpp:146-147 | traded plus left equals what there was, on the maker side and for the taker; matching stops only at an empty side, a filled taker or an open spread |
| `Queues.InsertKeepsSide` | src/pool_order_book.cpp:103-118 | resting a new order behind all orders at least as good keeps the side sorted, positive and free of duplicates |
| `Runs.ReachableIsWellFormed` | src/pool_order_book.cpp:84-121 | after every run both sides are sorted and duplicate-free, every resting order has quantity, and the best bid is below the best ask |
| `Runs.QuantityIsConserved` | src/pool_order_book.cpp:84-293 | over every run and per side, accepted equals traded plus resting plus cancelled plus discarded market remainders plus flushed; bought equals sold |
| `Runs.RunsKeepPriority` | src/pool_order_book.cpp:49-82 | with arrival stamps independent of the orders' own timestamps, every queue stays in price-then-arrival order: partial fills keep their place, cancels keep the others' order |
| `Runs.PriceTimePriority` | src/pool_order_book.cpp:123-199 | no trade of any run executes while an order on the maker's side has a better price, or the same price and an earlier arrival |
| `Laws.SplitOrder` | src/pool_order_book.cpp:84-199 | quantity a+b at once, or a then b under a fresh id, leaves the same opposite side, takes the same from every maker and rests the same volume |
| `Laws.CancelUndoesSubmit` | src/pool_order_book.cpp:201-231 | cancelling an accepted order at once restores the book if and only if it did not cross |
| `Laws.CancelsCommute` | src/stl_order_book.cpp:148-184 | two cancels may be exchanged, with the same answers |
| `Laws.CancelCommutesWithSubmit` | src/stl_order_book.cpp:148-184 | a cancel may be exchanged with a submission, with the same answer, trades and book, if and only if the submission would not hit the cancelled order; never a matter on the taker's own side |
| `Outcomes.AcceptedExactlyWhen` | src/pool_order_book.cpp:84-97 | an order is refused exactly for a zero quantity, a zero limit price or an id that rests, and then nothing changes |
| `Outcomes.TradesAllItCan` | src/pool_order_book.cpp:123-199 | an accepted market order trades the smaller of what it wants and the whole opposite side, whatever its price field; a limit order the smaller of what it wants and what is priced at its limit or better |
| `Outcomes.TradeReport` | src/pool_order_book.cpp:136-144 | trade `i` is with order `i` of the opposite side, at its price, which no order further back improves on and which respects the limit; taker, timestamp and aggressor side are the incoming order's |
| `Outcomes.OppositeSide` | src/stl_order_book.cpp:76-103 | the trades leave the orders behind them, and before those the last one hit with what it has left |
| `Outcomes.OwnSide` | src/stl_order_book.cpp:35-57 | what a limit order does not trade rests, with its own fields, behind every order of its side priced as well or better and before all others; nothing else changes there |
| `Outcomes.CancelMeans` | src/stl_order_book.cpp:148-184 | a cancel succeeds exactly for a resting id, closes the gap of that order and leaves all else as it was |
| `Outcomes.LookupMeans` | src/stl_order_book.cpp:186-199 | an order is found by an id exactly if it rests under it |
| `Outcomes.TopMeans` | src/stl_order_book.cpp:201-213 | the top of a side is the highest bid and the lowest ask |
| `Levels.FlattenInsert` | src/stl_order_book.cpp:42-57 | appending at a price's list is inserting into the flat side behind all orders at least as good |
| `Levels.FlattenRemove` | src/stl_order_book.cpp:156-167 | erasing from a price's list is removing from the flat side |
| `Levels.FlattenIsInjective` | include/stl_order_book.hpp:49-51 | a price map without empty lists is determined by its flat side: engines with equal flat sides have equal price maps |
| `Levels.HitFront` | src/stl_order_book.cpp:76-96 | one turn of the inner loop is one step of the greedy matcher on the flat side |
| `Index.EraseKeepsAgreement` | src/stl_order_book.cpp:148-184 | after an erase the index and the price map still tell the same story |
| `StlEngine.StlOrderBook.HitMaker` | src/stl_order_book.cpp:76-96 | hitting the front order leaves the greedy result to come unchanged and keeps index and levels in agreement |
| `StlEngine.StlOrderBook.FillLevel` | src/stl_order_book.cpp:75-96 | the inner loop ends with the level empty or the taker filled, having done part of the greedy match and no more |
| `StlEngine.StlOrderBook.MatchBuy` | src/stl_order_book.cpp:62-103 | the asks, the taker and the appended trades are those of the greedy match of the flat ask side, of which `Outcomes` says how much it trades at which prices; the bids are untouched |
| `StlEngine.StlOrderBook.MatchSell` | src/stl_order_book.cpp:105-146 | the same for an incoming sell order |
| `StlEngine.StlOrderBook.Rest` | src/stl_order_book.cpp:42-57 | the leftover stands in the flat side behind all orders at least as good; index and levels stay in agreement |
| `StlEngine.StlOrderBook.SubmitOrder` | src/stl_order_book.cpp:7-60 | answer, trades and new book are those of the simple form; the invariant is kept |
| `StlEngine.StlOrderBook.CancelOrder` | src/stl_order_book.cpp:148-184 | answer and new book are those of the simple form |
| `StlEngine.StlOrderBook.EraseFrom` | src/stl_order_book.cpp:156-180 | the flat side without the order, no empty list left behind, levels and index still in agreement |
| `StlEngine.StlOrderBook.Clear` | src/stl_order_book.cpp:258-263 | the empty book |
| `StlEngine.StlOrderBook.GetOrder` | src/stl_order_book.cpp:191-199 | the index finds exactly the order the book holds under this id |
| `StlEngine.StlOrderBook.BestBid` | src/stl_order_book.cpp:201-206 | the price of the first order of the flat bid side, if any |
| `StlEngine.StlOrderBook.BestAsk` | src/stl_order_book.cpp:208-213 | the same for the asks |
| `StlEngine.StlOrderBook.Census` | src/stl_order_book.cpp:215-228 | the numbers of resting ids and of distinct prices per side |
| `StlEngine.StlOrderBook.VolumeAtPrice` | src/stl_order_book.cpp:230-256 | the 32-bit sum of the live quantities at the price |
| `PoolNodes.RemoveFromLevel` | src/pool_order_book.cpp:64-82 | the slot is bypassed by its neighbours, the level is that of the chain without it, and the exact volume law is kept |
| `PoolNodes.AppendToLevel` | src/pool_order_book.cpp:49-62 | the slot is hooked in behind the chain, the level is that of the longer chain, and the exact volume law is kept |
| `PoolNodes.Thread` | src/pool_order_book.cpp:11-14 | all slots from a point on form one free run in index order, orders untouched |
| `PoolNodes.Grow` | src/pool_order_book.cpp:20-30 | the array doubles (1024 from nothing), old slots keep their content, every new slot is free in index order |
| `PoolNodes.PopFree` | src/pool_order_book.cpp:33-39 | the first free slot holds the order, the rest of the free list keeps its order |
| `PoolNodes.AllocateNode` | src/pool_order_book.cpp:18-40 | the order sits in the first available slot; the pool grew exactly if none was free; live slots are untouched |
| `PoolNodes.FreeNode` | src/pool_order_book.cpp:42-47 | the slot becomes the first of the free list, the others keep their order |
| `PoolNodes.Release` | src/pool_order_book.cpp:149-153 | an order leaves level, slot and index together; only dead slots and slots of this level changed |
| `PoolNodes.HitMaker` | src/pool_order_book.cpp:132-154 | hitting the head of a level leaves the greedy result to come unchanged, counts the quantity as traded against the level and changes no other level's slots |
| `PoolNodes.FillLevel` | src/pool_order_book.cpp:132-154 | the inner loop ends with the level empty or the taker filled; it terminates |
| `PoolNodes.MatchBuy` | src/pool_order_book.cpp:123-160 | the asks, the taker and the appended trades are those of the greedy match, of which `Outcomes` says how much it trades at which prices; bids, capacity and, if nothing traded, the whole pool are unchanged |
| `PoolNodes.MatchSell` | src/pool_order_book.cpp:162-199 | the same for an incoming sell order |
| `PoolNodes.RestOrder` | src/pool_order_book.cpp:105-118 | the leftover takes the first available slot and the last place of its level; growth happens exactly when no slot is free |
| `PoolNodes.IndexLeads` | src/pool_order_book.cpp:207-220 | for every indexed id the slot's own side and price lead to the level that holds it: the two guards of cancel never fail |
| `PoolNodes.EraseOrder` | src/pool_order_book.cpp:201-231 | the order leaves its level, an emptied level its map, the slot becomes the first free one |
| `PoolAnatomy.Match` | src/pool_order_book.cpp:98-102 | whichever the side, taker and trades are those of the greedy match, the own side is untouched, and each surviving level counts what was traded against it |
| `PoolAnatomy.Rest` | src/pool_order_book.cpp:104-118 | whichever the side, the leftover joins the flat side, the other side is untouched and no count changes |
| `PoolAnatomy.Erase` | src/pool_order_book.cpp:210-230 | whichever the side, the book is the one without the order and no count of a surviving level changes |
| `PoolAnatomy.IndexedIds` | src/pool_order_book.cpp:255-257 | the index holds exactly the resting ids; free slots plus resting orders is the capacity |
| `PoolAnatomy.CachedVolume` | src/pool_order_book.cpp:267-280 | the cached volume is, modulo 2^32, the live quantity plus all that was traded against the level since it was created |
| `PoolInvariant.SlotsArePartitioned` | include/pool_order_book.hpp:67-76 | every slot is free or in a level, never both; the free list repeats no slot; the index is a bijection from ids onto the slots in levels |
| `PoolInvariant.PlacesAreDisjoint` | include/pool_order_book.hpp:67-76 | no slot is in two levels or twice in one |
| `PoolInvariant.Occupant` | include/pool_order_book.hpp:21-27 | a slot in a level holds an order of that side and price, and the index leads to it |
| `PoolInvariant.LinksAreMutual` | src/pool_order_book.cpp:49-82 | prev and next are mutual inverses, null exactly at the level's head and tail; no level in the price map is empty, and each stands under its own price |
| `PoolInvariant.FieldsDetermineBook` | include/pool_order_book.hpp:67-76 | the fields leave no choice of book, chains and free list, nor of the traded-against counts modulo 2^32: what the proofs attach to a pool is, up to multiples of 2^32 in those counts, a function of its state |
| `PoolEngine.PoolOrderBook.constructor` | src/pool_order_book.cpp:6-16 | an empty book over the given number of slots, free in index order |
| `PoolEngine.PoolOrderBook.SubmitOrder` | src/pool_order_book.cpp:84-121 | answer, trades and book are those of the simple form; capacity and traded-against counts change as stated; a passive order takes the first available slot |
| `PoolEngine.PoolOrderBook.CancelOrder` | src/pool_order_book.cpp:201-231 | answer and book are those of the simple form; the slot becomes the first free one; a miss changes nothing |
| `PoolEngine.PoolOrderBook.Clear` | src/pool_order_book.cpp:282-293 | an empty book at the same capacity, all slots free in index order |
| `PoolEngine.PoolOrderBook.GetOrder` | src/pool_order_book.cpp:237-243 | the index finds exactly the order the book holds under this id |
| `PoolEngine.PoolOrderBook.BestBid` | src/pool_order_book.cpp:245-248 | the price of the first order of the flat bid side, if any |
| `PoolEngine.PoolOrderBook.BestAsk` | src/pool_order_book.cpp:250-253 | the same for the asks |
| `PoolEngine.PoolOrderBook.Census` | src/pool_order_book.cpp:255-265 | the numbers of resting ids and of distinct prices per side |
| `PoolEngine.PoolOrderBook.VolumeAtPrice` | src/pool_order_book.cpp:267-280 | the live volume at the price plus the level's traded-against count, modulo 2^32 |
| `Differential.RunBoth` | tests/test_differential.cpp:52-115 | for every sequence of submissions, cancels and flushes both engines return the same booleans, append the same trades and end in the same book, those of the simple form |
| `Differential.Compare` | tests/test_differential.cpp:91-109 | after any run all observers agree, except that the volumes at a price agree if and only if the quantity traded against the level is a multiple of 2^32 |
| `Differential.CacheIsRight` | src/pool_order_book.cpp:146-153 | the cached volume is the true one if and only if the traded-against count is a multiple of 2^32 |
| `Differential.CacheMayDrift` | src/pool_order_book.cpp:146-153 | a two-order run after which two are left and the cache says five |
| `Differential.CapacityIsBounded` | src/pool_order_book.cpp:18-40 | over every run the pool holds all resting orders and stays within the largest of its initial size, 1024 and twice the peak of resting orders |
| `Differential.CapacityNeverFalls` | src/pool_order_book.cpp:18-40 | at no point of a run was the pool larger than it is later |
| `Differential.SubmitThenCancel` | src/pool_order_book.cpp:18-121 | a non-crossing limit order submitted and cancelled leaves book and index as they were and, if a slot was free, the exact free-list order and capacity; otherwise exactly the new slots are free, in order |
| `SpscSafety.NextKeepsInv` | include/spsc_queue.hpp:37-98 | every single step of either thread keeps the invariant that ties slots, counters, snapshots and half-read batches to a first-in first-out queue |
| `SpscSafety.ExecKeepsInv` | include/spsc_queue.hpp:37-98 | so every state reached by any interleaving satisfies it |
| `SpscSafety.NeverOverwrites` | include/spsc_queue.hpp:46 | the slot the producer is about to write holds no queued item and no item of a batch being read |
| `SpscMachine.NothingIsLost` | include/spsc_queue.hpp:37-98 | in a legal history what went in is what came out followed by what is queued, and at most a capacity is queued |
| `SpscWrap.NextWraps` | include/spsc_queue.hpp:42-47 | a step with 64-bit counters and masked indices is the step with unbounded counters and remainders, cut to 64 bits |
| `SpscWrap.ExecWraps` | include/spsc_queue.hpp:37-98 | so the wrapping machine mirrors the unbounded one over every interleaving |
| `SpscWrap.QueueIsLinearizable` | include/spsc_queue.hpp:37-98 | with 64-bit counters and any power-of-two capacity up to 2^63, every interleaving of single steps yields a legal first-in first-out history: full only when full, empty only when empty, batches of exactly what the snapshot and the limit allow |
| `SpscCalls.PushAnswersOnce` | include/spsc_queue.hpp:37-49 | on 64-bit counters, from every reachable state and with any steps of the consumer in between: the four steps of a push leave the producer away and add exactly one answer, the item pushed if fewer than a capacity were queued when it looked at the head, and full otherwise |
| `SpscCalls.PopAnswersOnce` | include/spsc_queue.hpp:80-98 | likewise the steps of a batch pop leave the consumer away and add exactly one look, at the number of queued items, and, if there were any, one pop of the first of them, up to the limit |
| `Words.MaskIsRemainder` | include/spsc_queue.hpp:46 | masking with one less than a power of two is taking the remainder |
| `Words.WrapIsInvisible` | include/spsc_queue.hpp:93 | a power-of-two capacity does not notice that a counter wrapped |
| `SpscRing.RoundUpPowerOfTwo` | include/spsc_queue.hpp:115-121 | the least power of two at or above the request, for requests up to 2^63 |
| `SpscRing.RoundingEnds` | include/spsc_queue.hpp:115-121 | the rounding loop ends if and only if the request is at most 2^63 |
| `SpscRing.SpscQueue.Push` | include/spsc_queue.hpp:37-49 | false exactly when a capacity is queued; otherwise the item joins the back |
| `SpscRing.SpscQueue.Pop` | include/spsc_queue.hpp:66-77 | false exactly when nothing is queued; otherwise the front item leaves |
| `SpscRing.SpscQueue.PopBatch` | include/spsc_queue.hpp:80-98 | the oldest items, up to the limit, are appended in order to what the caller has, and leave the queue |
| `SpscRing.SpscQueue.Empty` | include/spsc_queue.hpp:106-108 | comparing the wrapped counters tells whether anything is queued |
| `Pipeline.ScheduleDoesNotMatter` | src/tcp_server.cpp:286-349 | at every point of every interleaving and for any batch sizes, book and responses are those of executing a prefix of the pushed messages one after the other, at most one response still unsent |
| `Pipeline.SchedulesAgree` | src/tcp_server.cpp:286-303 | two schedules that pushed the same messages and executed as many hold the same book and computed the same responses |
| `Pipeline.AdvanceKeepsInv` | src/tcp_server.cpp:290-302 | among others, the batch is empty at every loop head, without which appending batch pops would execute messages twice |
| `Pipeline.DrainOnExit` | benchmarks/benchmark_spsc.cpp:134-145 | if nothing is pushed after the flag is set, the thread leaves with every pushed message executed once, in order, and every response enqueued |
| `Pipeline.DrainedExactlyWhen` | src/tcp_server.cpp:290-302 | for every interleaving with any other side: when the thread has left, all pushed messages were executed if and only if no push took effect after the emptiness check that let it leave |
| `Pipeline.MayStrand` | src/tcp_server.cpp:151-153 | a schedule on which that fails: a message pushed after the thread has left is never executed |
| `Progress.SpinEnds` | src/tcp_server.cpp:280-283 | a push that met a full queue and is retried while nothing is collected succeeds, within a bounded number of steps of the matching thread, if and only if that thread has not left and the responses to the messages it has taken fit into the response queue; otherwise it never succeeds |
| `Progress.JoinReturns` | src/tcp_server.cpp:121-124 | the wait for the matching thread ends, within a bounded number of its steps and for any batch sizes, if and only if all responses not collected fit into the response queue; it then has executed every pushed message |
| `Progress.FinalDrain` | src/tcp_server.cpp:126-127 | the collection after the wait delivers every response if and only if at most 64 were still to be collected |
| `Progress.MayBlock` | src/tcp_server.cpp:345-347 | a run on queues of one, with three messages, from which neither wait ends |
| `RingProgress.EachStepCounts` | src/tcp_server.cpp:286-349 | each single load, store, slot read or slot write of a matching thread that has something to do and is not held up brings it nearer to its end |
| `RingWaits.JoinReturns` | src/tcp_server.cpp:121-124 | `Progress.JoinReturns` on the ring buffers with 64-bit counters, from every reachable state, counted in single steps |
| `RingWaits.SpinEnds` | src/tcp_server.cpp:280-283 | `Progress.SpinEnds` on the ring buffers: a push succeeds or finds room after that many single steps, or none ever does |
| `RingPipeline.TakeRefines` | src/tcp_server.cpp:286-349 | every single load, store, slot read or slot write of either thread is one step of the pipeline or none |
| `RingPipeline.WalkRefines` | src/tcp_server.cpp:286-349 | so every interleaving of single steps stands where an explicitly given schedule of the pipeline stands, and keeps the invariants of both |
| `RingPipeline.RingsDoNotMatter` | src/tcp_server.cpp:286-349 | schedule and batch independence on the ring buffers themselves, 64-bit counters and half-finished batch pops included |
| `RingDrain.DrainedExactlyWhen` | src/tcp_server.cpp:286-303 | the exact condition for a complete shutdown on the ring buffers, with 64-bit counters: no push was completed after the emptiness check that let the thread leave |
| `OpenLoop.AllExecuted` | benchmarks/benchmark_spsc.cpp:128-155 | when the open-loop matcher has left, every action was executed exactly once, in order, and the queue is empty |
| `OpenLoop.CanEnd` | benchmarks/benchmark_spsc.cpp:128-155 | from every reachable state some continuation ends the open loop, for every capacity from 1 |
| `RingOpenLoop.AllExecuted` | benchmarks/benchmark_spsc.cpp:128-155 | the same as `OpenLoop.AllExecuted` in every interleaving of single steps on a ring buffer with 64-bit counters |
| `RingOpenLoopProgress.CanEnd` | benchmarks/benchmark_spsc.cpp:128-155 | from every state the single steps lead to, some continuation lets the matching thread leave |
| `ClosedLoop.WindowIsKept` | benchmarks/benchmark_spsc.cpp:213-257 | at most `window` actions are unacknowledged, and `in_flight` counts them exactly, up to the one update about to be made; it never underflows |
| `ClosedLoop.CreditIsUsed` | benchmarks/benchmark_spsc.cpp:219-228 | a client that waits for credit has exactly `window` unacknowledged actions |
| `ClosedLoop.StampsAreReadings` | benchmarks/benchmark_spsc.cpp:233-245 | every pushed message carries a clock reading of its own, the client's last before the push, in the order of the actions |
| `ClosedLoopProgress.DrainsUpTo64` | benchmarks/benchmark_spsc.cpp:213-257 | one draining takes all completions it saw, up to 64 |
| `ClosedLoopProgress.CanEnd` | benchmarks/benchmark_spsc.cpp:186-257 | with a window and queues of at least one, from every reachable state some continuation ends the client and lets the matching thread leave |
| `ClosedLoop.QueuesAreNeverFull` | benchmarks/benchmark_spsc.cpp:190-257 | with 1 <= window <= both capacities no push of either thread ever meets a full queue |
| `ClosedLoop.AllAcknowledged` | benchmarks/benchmark_spsc.cpp:230-257 | when the client has ended every action was executed and acknowledged exactly once, in order, with the message of its last stamping, and both queues are empty |
| `RingClosedLoop.RingsAreNeverFull` | benchmarks/benchmark_spsc.cpp:190-257 | on ring buffers with 64-bit counters, with 1 <= window <= both capacities, no push of either thread ever finds its ring full, in any interleaving of single steps |
| `RingClosedLoop.AllAcknowledged` | benchmarks/benchmark_spsc.cpp:213-257 | on those rings, for every window and capacity, the counter never exceeds the window, and an ended client has every action executed and acknowledged exactly once, in order |
| `RingClosedLoopProgress.CanEnd` | benchmarks/benchmark_spsc.cpp:186-257 | on those rings with a window of at least one, from every state the single steps lead to, some continuation ends the client and lets the matching thread leave |
| `RingClosedLoopProgress.CreditIsUsed` | benchmarks/benchmark_spsc.cpp:219-228 | on those rings a client that waits for credit has exactly `window` unacknowledged actions |
| `Benchmark.OpenLoopResult` | benchmarks/benchmark_spsc.cpp:116-155 | without a completion queue, whatever the schedule, the batch sizes and the capacity from 1: a matcher that has left holds the book of executing the actions one after the other, and some continuation makes it leave |
| `Benchmark.OpenLoopOnRing` | benchmarks/benchmark_spsc.cpp:116-155 | the same in every interleaving of single steps on the ring buffer |
| `Benchmark.ClosedLoopResult` | benchmarks/benchmark_spsc.cpp:173-257 | an ended closed loop holds that book too, and its client has one completion per action, in order, each with the timestamp stamped before the push that succeeded; and with a window and queues of at least one some continuation ends the client and lets the matcher leave |
| `Benchmark.ClosedLoopOnRings` | benchmarks/benchmark_spsc.cpp:173-257 | the same in every interleaving of single steps on the two ring buffers |
| `Text.SplitTokens` | src/protocol.cpp:13-36 | the nested loops compute the maximal runs of non-blank characters |
| `Text.TokensAroundBlank` | src/protocol.cpp:13-36 | a blank separates: the tokens before it, then those after it |
| `Text.TokensAreDetermined` | src/protocol.cpp:13-36 | space, tabulator and carriage return separate, and a non-empty text without them is one token: these laws determine the tokens of every text |
| `Text.ParsePrinted` | src/protocol.cpp:38-43 | reading undoes printing for every number below the bound and fails for every other |
| `Text.NumberExactlyWhen` | src/protocol.cpp:38-43 | whatever the token, it is read as a number exactly if it is that number's numeral, perhaps with zeros in front, and the number is below the bound |
| `Text.PlaceValue` | src/protocol.cpp:38-43 | a digit counts what it stands for, and each place ten times the next |
| `Text.LinesAreDetermined` | src/tcp_server.cpp:241-250 | a line ends in a newline, and one carriage return before it is dropped; what has no newline is no line yet: these laws determine the lines of every text |
| `Text.TakeLines` | src/tcp_server.cpp:241-250 | the loop delivers exactly the complete lines, without line ends, and keeps what follows the last |
| `Text.HandleRead` | src/tcp_server.cpp:217-251 | one readiness event delivers the complete lines of the old buffer and everything read, and keeps the rest |
| `Text.FragmentationDoesNotMatter` | src/tcp_server.cpp:217-251 | however the stream is cut into reads, the same lines are delivered and the same text stays buffered |
| `Protocol.NewIsRead` | src/protocol.cpp:57-131 | the canonical NEW text is read back as side, id, price, quantity and type for all values, and refused for a zero or too wide field with the right error |
| `Protocol.TypeIsRead` | src/protocol.cpp:100-111 | whatever the line, an order that was read is a market order if and only if it has a sixth token that is MARKET or M |
| `Protocol.AnySixthWord` | src/protocol.cpp:100-111 | a NEW line with any sixth word whatever is read, and is a limit order unless the word is MARKET or M |
| `Protocol.CancelIsRead` | src/protocol.cpp:133-154 | the canonical CANCEL text is read back for every id from 1, and refused otherwise |
| `Protocol.ReadOrdersAreSound` | src/protocol.cpp:81-131 | whatever the line, only a resting id or a limit price of zero can make the book refuse an order that was read |
| `Grammar.NewExactlyWhen` | src/protocol.cpp:57-131 | a line is a given order exactly if its words are NEW, BUY or B or SELL or S, the id, the price and the quantity, id and quantity not zero, and the type and the clock reading are those of the order |
| `Grammar.CancelExactlyWhen` | src/protocol.cpp:133-154 | a line cancels an id exactly if its first word is CANCEL and its second denotes that id, which is not zero |
| `Grammar.FlushExactlyWhen` | src/protocol.cpp:156-159 | a line is a flush exactly if its first word is FLUSH |
| `Grammar.VerbErrors` | src/protocol.cpp:48-52 | a line of blanks is an empty command, and one without a verb an unknown one |
| `Grammar.NewLineErrors` | src/protocol.cpp:57-98 | a NEW line is refused for the first field that cannot be read, with that field's error |
| `Grammar.CancelErrors` | src/protocol.cpp:133-148 | a CANCEL line is refused for a missing or unreadable id |
| `Protocol.AckIsReadBack` | src/protocol.cpp:164-167 | an acknowledgement is one line whose tokens give back id and remainder, for all values |
| `Protocol.TradeIsReadBack` | src/protocol.cpp:169-172 | a trade report is one line whose tokens give back all five printed fields, for all values |
| `Gateway.ExecuteCommand` | src/tcp_server.cpp:305-349 | the engine's book and the response are those of the specification, for every command; `Responses` says what these are |
| `Gateway.EveryCommandIsAnswered` | src/tcp_server.cpp:338-348 | no queued command has an empty payload, so each is answered |
| `Gateway.LookupSubmitted` | src/tcp_server.cpp:329-331 | after an accepted submission the book knows the order exactly if it rests, with its remainder |
| `Gateway.QuantitiesAddUp` | src/tcp_server.cpp:318-335 | the quantities read from the TRADE and ACK lines of the response text add up to the quantity submitted, less what a market order could not fill |
| `Gateway.LineServer.ProcessLines` | src/tcp_server.cpp:240-284 | the loop queues the messages and sends the refusals that `Admission` speaks of |
| `Gateway.AdmittedInOrder` | src/tcp_server.cpp:253-284 | queued messages are numbered 1, 2, 3 and so on, and are well-formed commands |
| `Admission.AdmittedAreTheCommands` | src/tcp_server.cpp:253-284 | the queued messages are, in order and without gaps, one for each line that is a command, with exactly that command, that line's client and its time of queueing |
| `Admission.RefusedAreTheOthers` | src/tcp_server.cpp:258-263 | every other line that is not empty is refused to its client with REJECT 0 and its error, in order, and queues nothing |
| `Admission.ResponsesReachTheirClients` | src/tcp_server.cpp:253-349 | in every interleaving of the ring steps, response `k` carries number `k+1`, answers the `k`th line that is a command, on the book the commands before it left, and goes to that line's client |
| `Responses.AcceptedIsAnswered` | src/tcp_server.cpp:318-335 | an accepted order is answered by one TRADE line per trade, in order, then an ACK line with the remainder if and only if it rests, then a NO_LIQUIDITY line if and only if it is a market order that met an empty side |
| `Responses.RefusedIsAnswered` | src/tcp_server.cpp:318-319 | a refused order is answered by one DUPLICATE_OR_INVALID_ORDER line |
| `Responses.CancelIsAnswered` | src/tcp_server.cpp:311-317 | a cancel is answered CANCELED if and only if the id rests, and ORDER_NOT_FOUND otherwise |
| `Responses.FlushIsAnswered` | src/tcp_server.cpp:308-310 | a flush empties the book and is answered BOOK_FLUSHED |
| `Responses.AnswerIsAddressed` | src/tcp_server.cpp:338-343 | every answer goes to the client that asked, under the number of its command |
| `Gateway.AnswersInOrder` | src/tcp_server.cpp:305-349 | executing messages one after the other yields exactly one response each, response `k` answering message `k` on the book its predecessors left |
| `Gateway.WaitsInNumbers` | src/tcp_server.cpp:338-348 | for the gateway both waits are decided by counting commands taken or pushed and not collected, since every command is answered |
| `Gateway.ResponsesAreNumbered` | src/tcp_server.cpp:258-349 | in every interleaving of the gateway's threads, response number `k` carries sequence number `k+1` and answers command `k` on the book its predecessors left |

## Left out

- `Gateway.ResponsesAreNumbered`: stated for fewer than 2^64 - 1 client lines; after that many the 64-bit sequence number repeats.
- `PoolEngine.PoolOrderBook.SubmitOrder`: requires that the resulting book fits the pool or that the doubled pool still has 32-bit slot indices; beyond that the original's indices would be cut off.
- `Differential.RunBoth`: the same bound on slot indices, stated for the run (`Fits`).
- List iterators of the list-based engine are modelled by the order they designate: erasing an iterator removes that order from its list.
- The pooled engine's private helpers take the fields they touch as values and return the new ones; a level is taken out of its price map, worked on and put back, where the original holds a reference into the map.
- `has_order`, `total_orders`, `bid_levels` and `ask_levels` appear as `GetOrder` and `Census`, used in `Differential.Compare` only.
- Calls of the ring buffer class run one at a time; interleavings are the subject of `SpscMachine` and `RingPipeline`.
- Atomics are sequentially consistent steps: the memory orders of the original, cache-line padding and `size()` are not modelled.
- Sockets, epoll, connection lifetime and the end-of-file path, which drops buffered text: input and output plumbing.
- Clock readings are opaque numbers; latency statistics, workload generation, the command-line program, the client script and benchmark printing are not part of this model.
- Standard containers and `std::from_chars` are modelled by their contracts: ordered map, map, sequence, whole-token decimal in range. Allocation failure is not modelled.
