# Verified model of the trading lab

A Dafny model of the state machines at the heart of a header-only low-latency trading repository, with
proofs of what they promise. `dafny verify dfyconfig.toml` checks everything.

| files | what they model |
|---|---|
| `Numbers.dfy` | the byte type and minimum and maximum, shared |
| `Ring.dfy`, `Mpmc.dfy`, `Mpsc.dfy`, `Spsc.dfy`, `Varlen.dfy` | the lock-free queues, as transition systems: every atomic load, store and CAS and every word or byte of a payload copy is a step, any number of threads interleave freely, a weak CAS may fail spuriously |
| `Ordered.dfy`, `Bitmap.dfy`, `BookSpec.dfy`, `FlatBook.dfy` | the flat order book (arrays, occupancy bitmap, cursors, id map), its bit scans, and the map-based book it refines |
| `GapRecovery.dfy`, `FeedOrder.dfy`, `FeedDedup.dfy`, `RateWindow.dfy` | feed recovery: gaps, in-order delivery, duplicate filters, sliding-window meters |
| `PositionBook.dfy`, `Oms.dfy`, `OmsLaws.dfy`, `OmsRuns.dfy` | the order management system: lifecycle, pending ledger, limits, profit and loss |
| `ItchBook.dfy`, `ItchLaws.dfy`, `ItchQueries.dfy`, `ItchHandler.dfy` | the reconstructed ITCH book, its audit and its book-walk queries |
| `FixText.dfy`, `FixMessage.dfy`, `FixRoundTrip.dfy`, `FixLaws.dfy` | FIX framing: build, parse, validate |

Objects that the source updates in place are classes; each method is proved equal to a function on
values (`View()` before and after), and the theorems are about those functions over every run. What a
function computes is pinned apart from its definition: the queues against the arguments read off the
schedule, the books per level and per order, the OMS field by field, the feed filters against histories
kept without them, the parser against the text.

Where a property does not hold for all inputs, a lemma gives an input on which it fails and another
states the exact condition:

- MPMC and MPSC queues are safe exactly for sizes from 2 up (`SafeExactlyFromSizeTwo`,
  `MpscSafeExactlyFromSizeTwo`): with one cell the published stamp is also the free stamp.
- An accepted submission or replace keeps the pending ledger right exactly when its quantity is below
  2^31 (`SubmitBalancesIff` with `HugeBuyBooksAsSell`, `ReplaceBalancesIff` with
  `HugeReplaceBooksAsSell`): quantities are narrowed to 32 bits signed. Amends only reduce and need no
  condition.
- The position limit survives cancels exactly when each side of the open orders fits it alone
  (`CancelSafeIff`, `CancelBreaksLimit`).
- The average price is rounded to within half a unit per share exactly when the rounded total is not
  negative or divides evenly (`RoundingExact`, `NegativePricesDrift`); at any prices a fill keeps within
  its slack exactly when it reduces, closes or flips, or its average rounds so (`FillDriftIff`).
- The ITCH audit returns 0 exactly when no event put shares under a live reference
  (`AuditZeroIffNoReuse`, `ReuseFailsAudit`). The comment at itch-parser/itch_book.hpp:1264-1266 names
  the add case only; a replace onto another live reference does the same.
- As long as the timestamp ring keeps room for another entry, over runs of any length, the window
  counts are exact after every arrival exactly when the arrivals are in order (`ExactIffOrderly`,
  `DisorderMiscounts`).
- A message with one byte changed before its trailer can still pass (`TagChangeUndetected`). A text
  passes the checksum exactly when its first checksum field names the sum of the bytes before its last
  one (`ChecksumPassesIff`, for every text the parser reads whole). So a change that leaves the trailer
  and the fields in place passes exactly when the first checksum field names the new sum
  (`ByteChangePassesIff`), a change inside the body leaves a valid message exactly then
  (`BodyChangeValidIff`), and no change passes without a checksum field before the trailer
  (`ByteChangeDetected`).
- Arbitrator and reconciler agree exactly on streams never below their first sequence
  (`ArbitratorIsReconciler`, `LateStartDisagrees`).

## Model

| member | source | states |
|---|---|---|
| `MpmcQueue.StepKeepsInv` | lockfree/mpmc_queue.hpp:52-95 | one step of any thread keeps the stamp protocol: each cell awaits the writer of one ticket or holds the whole item of one ticket, and writers and readers own their cells |
| `MpmcQueue.RunKeepsInv` | lockfree/mpmc_queue.hpp:42-95 | that invariant holds after every interleaving of any length |
| `MpmcQueue.EveryRunIsSafe` | lockfree/mpmc_queue.hpp:52-95 | from the constructor, in every interleaving: no pushed item is lost; the pushes and the pops that returned name pairwise different tickets, exactly those published and those popped, each with the item pushed under that ticket; the items pushed are, in order, the arguments of the calls that returned true; no two threads copy in one cell |
| `MpmcQueue.HistoryOnlyGrows` | lockfree/mpmc_queue.hpp:52-95 | no step rewrites what was pushed or popped, and a step pops only a ticket that its thread has been reading |
| `MpmcQueue.PopIsFirst` | lockfree/mpmc_queue.hpp:74-95 | a pop that returns has a ticket that nobody has popped before, and the item pushed under it |
| `MpmcQueue.RunPops` | lockfree/mpmc_queue.hpp:74-95 | along every schedule the completed pops add pairwise different tickets to those popped before |
| `MpmcQueue.RunPushes` | lockfree/mpmc_queue.hpp:52-72 | along every schedule the completed pushes publish pairwise different tickets |
| `MpmcQueue.PushesAreAsked` | lockfree/mpmc_queue.hpp:52-72 | along every schedule, retries and spurious failures included, the completed pushes published the arguments of the `push` calls that returned true, read off the schedule, in the order of return |
| `MpmcQueue.PushesByAreAsked` | lockfree/mpmc_queue.hpp:52-72 | the same thread by thread: what a thread published is what its own calls asked for |
| `MpmcQueue.RunOnlyGrows` | lockfree/mpmc_queue.hpp:52-95 | over whole runs nothing pushed or popped is ever rewritten |
| `MpmcQueue.RealTimeOrder` | lockfree/mpmc_queue.hpp:52-95 | first in, first out in real time: a push, or a pop, begun after others have returned gets a later ticket than every one of theirs |
| `MpmcQueue.CopiersApart` | lockfree/mpmc_queue.hpp:69-93 | two threads that copy payload words never use the same cell |
| `MpmcQueue.TicketAccounted` | lockfree/mpmc_queue.hpp:57-93 | each claimed ticket is being written, waits whole in its cell, is being read, or was popped |
| `MpmcQueue.RefusalComesFromStamp` | lockfree/mpmc_queue.hpp:57-67 | `push` and `pop` refuse at the load of the stamp, exactly when it is behind |
| `MpmcQueue.FullIsTruthful` | lockfree/mpmc_queue.hpp:57-67 | `push` returns false only at the head with the ticket one lap back not yet released |
| `MpmcQueue.EmptyIsTruthful` | lockfree/mpmc_queue.hpp:79-90 | `pop` returns false only at the tail with that ticket not yet published |
| `MpmcQueue.EmptyAnswerIsTruthful` | lockfree/mpmc_queue.hpp:97-101 | `empty` answers false exactly when the ticket it loaded is published and not popped, whether or not pops have overtaken the call |
| `MpmcQueue.QuiescentContents` | lockfree/mpmc_queue.hpp:52-95 | with no call in flight the cells hold exactly the tickets from tail to head, and the head cell is free exactly when fewer than SIZE are held |
| `MpmcQueue.SoloPush` | lockfree/mpmc_queue.hpp:52-72 | a push alone on a quiescent queue ends: refused exactly when full, else the item is appended |
| `MpmcQueue.SoloPop` | lockfree/mpmc_queue.hpp:74-95 | a pop alone on a quiescent queue ends: refused exactly when empty, else it returns the oldest item |
| `MpmcQueue.SizeOneLosesItems` | lockfree/mpmc_queue.hpp:27-93 | with SIZE 1, two pushes and no pop lose an item |
| `MpmcQueue.SafeExactlyFromSizeTwo` | lockfree/mpmc_queue.hpp:27-95 | every run keeps every item if and only if SIZE is at least 2 |
| `MpscQueue.StepSimulates` | lockfree/mpsc_queue.hpp:67-100 | each step of the MPSC queue is a run of the MPMC queue, the window between stamp release and tail store included |
| `MpscQueue.RunSimulates` | lockfree/mpsc_queue.hpp:67-100 | every MPSC run is an MPMC run |
| `MpscQueue.EveryMpscRunIsSafe` | lockfree/mpsc_queue.hpp:67-100 | in every interleaving nothing is lost; the consumer's calls returned the tickets 0 to tail-1, once each and in order, with the items pushed under them; pushes returned pairwise different tickets, each with the argument of its own call; the consumer never shares a cell with a producer |
| `MpscQueue.RunReturns` | lockfree/mpsc_queue.hpp:67-100 | along every schedule from any reachable state, pops return consecutive tickets and pushes different ones |
| `MpscQueue.MPushesAreAsked` | lockfree/mpsc_queue.hpp:67-87 | what the producers published is, in order, the arguments of their calls that returned true |
| `MpscQueue.PopIsWaitFree` | lockfree/mpsc_queue.hpp:89-100 | whatever the producers do, a pop returns within width+4 of its own steps, with the item of the ticket at the tail or empty-handed |
| `MpscQueue.MpscFullIsTruthful` | lockfree/mpsc_queue.hpp:67-87 | a producer is refused only by a full lap of unreleased tickets |
| `MpscQueue.MpscEmptyIsTruthful` | lockfree/mpsc_queue.hpp:89-95 | the consumer is refused exactly when the ticket at the tail is unpublished |
| `MpscQueue.MpscSafeExactlyFromSizeTwo` | lockfree/mpsc_queue.hpp:42-100 | every MPSC run keeps every item if and only if SIZE is at least 2 |
| `SpscQueue.RunKeepsInv` | lockfree/spsc_queue.hpp:53-69 | the head/tail protocol's invariant holds after every interleaving |
| `SpscQueue.EveryRunDeliversAPrefix` | lockfree/spsc_queue.hpp:53-69 | what was pushed is, in order, the arguments of the pushes that returned true; the popped items are a prefix of it and at most SIZE-1 are held |
| `SpscQueue.RefusalsAreExact` | lockfree/spsc_queue.hpp:56-65 | `push` refuses exactly at SIZE-1 items, `pop` exactly at none |
| `SpscQueue.PushesAreAsked` | lockfree/spsc_queue.hpp:53-60 | along every list of moves from any state the pushed items are the arguments of the calls that returned true |
| `SpscQueue.PushIsWaitFree` | lockfree/spsc_queue.hpp:53-60 | whatever the consumer does, a push returns within width+3 of its own steps, having pushed its argument or nothing |
| `SpscQueue.PopIsWaitFree` | lockfree/spsc_queue.hpp:62-69 | whatever the producer does, a pop returns within width+3 of its own steps, having popped one item or nothing |
| `VarlenRing.LenRoundTrip` | lockfree/varlen_ring.hpp:48-49 | a frame length survives its four-byte header |
| `VarlenRing.RunKeepsInv` | lockfree/varlen_ring.hpp:75-105 | the ring holds the unread part of the byte stream after every interleaving, wherever it wraps |
| `VarlenRing.EveryRunDeliversAPrefix` | lockfree/varlen_ring.hpp:75-105 | the payloads that reads returned are a prefix of the payloads of the writes that returned true, both read off the moves, byte for byte; the partial/corrupt return is never taken; at most SIZE-1 bytes are held |
| `VarlenRing.FramesAreAsked` | lockfree/varlen_ring.hpp:75-87 | along every list of moves the frames written are the payloads of the accepted `write` calls, in order |
| `VarlenRing.DeliveredAreAnswers` | lockfree/varlen_ring.hpp:92-105 | the frames delivered are the payloads the `read` calls returned, in order |
| `VarlenRing.WriteRefusedIff` | lockfree/varlen_ring.hpp:75-80 | a write is refused at its call exactly when it is empty or larger than SIZE-1-4 bytes, afterwards exactly at its load of the tail when its record does not fit beside the unread bytes |
| `VarlenRing.WriteIsWaitFree` | lockfree/varlen_ring.hpp:75-87 | whatever the consumer does, a write returns within |p|+7 of its own steps, having written its whole payload or nothing |
| `VarlenRing.ReadIsWaitFree` | lockfree/varlen_ring.hpp:92-105 | whatever the producer does, a read returns within SIZE+8 of its own steps: the next record if it fits the caller's limit, nothing, or a refusal that leaves the larger record in place |
| `VarlenRing.AnswersAreExact` | lockfree/varlen_ring.hpp:56-100 | `write` refuses exactly when the frame does not fit, `read` returns nothing exactly when every frame was read or the next is larger than the caller's buffer |
| `VarlenRing.WriteAt` | lockfree/varlen_ring.hpp:122-131 | the bytes land on consecutive ring positions and no other byte changes |
| `VarlenRing.ReadAt` | lockfree/varlen_ring.hpp:133-142 | returns the bytes of consecutive ring positions |
| `Ring.WrapIsModulo` | lockfree/mpmc_queue.hpp:39-39 | the slot of a position is its remainder |
| `Ring.MaskedDistance` | lockfree/varlen_ring.hpp:61-63 | the masked difference of two wrapped positions is their true distance |
| `Ring.MaskedRoom` | lockfree/varlen_ring.hpp:56-59 | the masked free space is the room with one slot kept unused |
| `Bitmap.SetBit` | orderbook/orderbook_flat.hpp:206-208 | sets the bit of one level and no other |
| `Bitmap.ClearBit` | orderbook/orderbook_flat.hpp:210-212 | clears the bit of one level and no other |
| `Bitmap.Clz` | orderbook/orderbook_flat.hpp:222-223 | counts the zero bits above the highest set one |
| `Bitmap.Ctz` | orderbook/orderbook_flat.hpp:237-238 | counts the zero bits below the lowest set one |
| `Bitmap.ScanDown` | orderbook/orderbook_flat.hpp:216-228 | the highest occupied level at or below the start, or -1 when there is none |
| `Bitmap.ScanUp` | orderbook/orderbook_flat.hpp:231-243 | the lowest occupied level at or above the start, or LEVELS when there is none |
| `BookSpec.BuyIsSweep` | orderbook/orderbook_flat.hpp:98-105 | a buy takes min(qty, asks at or below its limit), best level first, in one trade for each level it reaches, rests its remainder at the limit and changes no other level |
| `BookSpec.SellIsSweep` | orderbook/orderbook_flat.hpp:107-114 | the same for a sell |
| `BookSpec.MatchSpendsPotential` | orderbook/orderbook_flat.hpp:185-202 | every trade empties a level: trades plus occupied levels do not grow while matching |
| `BookSpec.RunBound` | orderbook/orderbook_flat.hpp:98-167 | over every run with cancels and modifies the book is never left crossed and trades plus occupied levels never exceed the accepted submissions |
| `BookSpec.CancelKeepsGood` | orderbook/orderbook_flat.hpp:142-159 | a cancel keeps an uncrossed book of non-empty levels |
| `BookSpec.AddLaw` | orderbook/orderbook_flat.hpp:98-114 | an add is accepted exactly on a price of the book and a positive size, and is then that sweep on its own side |
| `BookSpec.SubmitLaw` | orderbook/orderbook_flat.hpp:125-140 | a submission is accepted exactly on such input under an id that is not live; it is that sweep on its own side, stores exactly price, size and side under the id and touches no other id; refused, nothing changes |
| `BookSpec.CancelLaw` | orderbook/orderbook_flat.hpp:142-159 | accepted exactly under a live id: the level of the order's own side and price loses min(order, level), no other level and no trade count changes, the id is gone and a second cancel is refused |
| `BookSpec.ModifyLaw` | orderbook/orderbook_flat.hpp:161-167 | accepted exactly under a live id with valid new values: the order leaves as in a cancel and the new one sweeps on the same side under the same id; invalid values leave it cancelled |
| `FlatBook.FlatOrderBook.TryMatch` | orderbook/orderbook_flat.hpp:185-202 | ends, refines matching on level maps, and leaves bitmap and cursors exact |
| `FlatBook.FlatOrderBook.AddBuyOrder` | orderbook/orderbook_flat.hpp:98-105 | refuses exactly bad prices and sizes, else adds and matches; bit p is set iff level p is non-empty, cursors are the true best levels |
| `FlatBook.FlatOrderBook.AddSellOrder` | orderbook/orderbook_flat.hpp:107-114 | the same for a sell |
| `FlatBook.FlatOrderBook.SubmitWithId` | orderbook/orderbook_flat.hpp:125-140 | refuses bad input and a known id, else adds under the id: the effect that `SubmitLaw` states |
| `FlatBook.FlatOrderBook.CancelOrder` | orderbook/orderbook_flat.hpp:142-159 | drops min(order, level) at the order's level and forgets the id: the effect that `CancelLaw` states |
| `FlatBook.FlatOrderBook.ModifyOrder` | orderbook/orderbook_flat.hpp:161-167 | cancel then submit: a refused new price leaves the order cancelled, the effect that `ModifyLaw` states |
| `FlatBook.Replay` | orderbook/orderbook_flat.hpp:98-202 | after any list of calls the book is valid, uncrossed, equal to the run of the specification, within the amortised bound |
| `FlatBook.MapOrderBook.TryMatch` | orderbook/orderbook_flat.cpp:53-65 | the reference book's loop computes the same matching |
| `FlatBook.RunBoth` | orderbook/orderbook_flat.cpp:36-66 | run on the same adds, the flat book and the map book hold the same levels and trade count |
| `FlatBook.QuantitiesAgree` | orderbook/orderbook_flat.hpp:177-182 | equal views mean equal quantities at every level |
| `FlatBook.BooksAgree` | orderbook/orderbook_flat.hpp:171-182 | and equal best bid, best ask and trade count |
| `GapRecovery.Recovery.ObserveSeq` | multicast/gap_recovery.hpp:95-109 | the primary-feed handler: opens a gap, fills one, or counts a duplicate |
| `GapRecovery.Recovery.OnRetransmit` | multicast/gap_recovery.hpp:113-116 | counts exactly when it fills a gap |
| `GapRecovery.Recovery.SnapshotResync` | multicast/gap_recovery.hpp:263-270 | everything up to the snapshot is recovered |
| `GapRecovery.EveryRunIsPartitioned` | multicast/gap_recovery.hpp:95-116 | against a history kept without the recovery, every run keeps each sequence from the first to `expected` covered or missing, never both; recovered plus missing equal to the sum of all gap widths; and packets, gap events, duplicates and the widest gap counted exactly |
| `GapRecovery.PartitionFromStart` | multicast/gap_recovery.hpp:83-116 | the same after every run from a fresh recovery, where a retransmission is answered true exactly when its sequence lies between the first and the greatest and nothing has covered it |
| `GapRecovery.RangesOf` | multicast/gap_recovery.hpp:242-252 | the range loop computes the grouping of the ordered missing set |
| `GapRecovery.CountRuns` | multicast/gap_recovery.hpp:192-201 | counts the ranges without building them |
| `GapRecovery.LargestRun` | multicast/gap_recovery.hpp:210-220 | the greatest range width, without building them |
| `GapRecovery.RangesAreTheRuns` | multicast/gap_recovery.hpp:192-252 | the ranges are the maximal disjoint sorted intervals whose union is the missing set, the only such list, and the largest run is their greatest width |
| `FeedOrder.ContiguousTracker.ReceiveSeq` | multicast/gap_recovery.hpp:950-960 | advances over everything contiguous, sets the rest aside and records the lookahead |
| `FeedOrder.ReorderBuffer.Push` | multicast/gap_recovery.hpp:1526-1541 | buffers and drains in order, counts duplicates and the greatest number buffered |
| `FeedOrder.HeadOfLineIsLeastUnseen` | multicast/gap_recovery.hpp:235-237 | `expected - head_of_line_lag` is the least unseen sequence |
| `FeedOrder.ViewsAgree` | multicast/gap_recovery.hpp:1526-1541 | on every stream from f: tracker, reorder buffer and gap recovery stand at the same sequence, the least unseen one; the buffer has delivered exactly the values of f to expected-1 in order and counted exactly the packets that came after their delivery |
| `FeedDedup.ABLineArbitrator.OnPacket` | multicast/gap_recovery.hpp:293-302 | forwards and counts by line through the gap summary |
| `FeedDedup.DualFeedReconciler.OnPacket` | multicast/gap_recovery.hpp:1138-1143 | forwards the first copy of each sequence |
| `FeedDedup.ArbitratorIsReconciler` | multicast/gap_recovery.hpp:293-302 | the two make the same choices on a stream if and only if no packet lies below the first; then their line counts agree |
| `FeedDedup.LateStartDisagrees` | multicast/gap_recovery.hpp:1138-1143 | a packet below the first is dropped by one and forwarded by the other |
| `FeedDedup.ForwardsFirstCopies` | multicast/gap_recovery.hpp:1138-1143 | the reconciler forwards a packet exactly when no earlier one carried its sequence |
| `FeedDedup.WinsAreFirstCopies` | multicast/gap_recovery.hpp:1138-1143 | on every stream a line wins exactly the sequences it brought first and every other packet is a duplicate |
| `FeedDedup.DedupWindow.AcceptSeq` | multicast/gap_recovery.hpp:510-520 | accepts, or counts a duplicate, and prunes the window |
| `FeedDedup.Prune` | multicast/gap_recovery.hpp:516-517 | leaves exactly the numbers still inside the window |
| `FeedDedup.WindowIsFullMemory` | multicast/gap_recovery.hpp:507-520 | on every stream the pruned set accepts exactly what remembering everything accepts, each number at most once, storing at most `window` numbers; every packet is counted as accepted or duplicate |
| `RateWindow.TimestampRing.Evict` | common/ring_counter.hpp:25-28 | forgets exactly the leading entries at or before the cutoff |
| `RateWindow.TimestampRing.Push` | common/ring_counter.hpp:32-36 | appends; a full ring drops its oldest entry |
| `RateWindow.TimestampRing.Count` | common/ring_counter.hpp:38-40 | the masked difference is the number of entries held |
| `RateWindow.FeedRateMeter.OnMessage` | multicast/gap_recovery.hpp:56-61 | records an arrival, evicts, tracks the peak |
| `RateWindow.SlidingWindowRate.OnEvent` | multicast/gap_recovery.hpp:1010-1015 | the same, without a floor on the window |
| `RateWindow.CountIsExact` | multicast/gap_recovery.hpp:56-65 | for any run at non-decreasing times the count is min(N-1, arrivals later than now - window) and the peak is the greatest such count at an arrival |
| `RateWindow.MetersHold4095` | multicast/gap_recovery.hpp:44-65 | the meters' own rings of 4096 slots count up to 4095 events |
| `RateWindow.DisorderMiscounts` | common/ring_counter.hpp:25-28 | with times out of order the count can be too high |
| `RateWindow.ExactIffOrderly` | multicast/gap_recovery.hpp:56-65 | while the ring keeps room for another entry, over any number of arrivals, every count after every arrival, asked for at any later time, is exact if and only if the arrivals are non-decreasing; a negative window forgives disorder up to its length |
| `PositionBook.RoundingExact` | oms/oms.hpp:1475-1477 | the rounded average is within half a unit per share if and only if the rounded total is non-negative or divides evenly |
| `PositionBook.NegativePricesDrift` | oms/oms.hpp:1477-1477 | negative prices round a whole unit off |
| `PositionBook.FillLaw` | oms/oms.hpp:1467-1493 | an increase earns nothing and averages the entry price, rounded half up; a reduction earns the closed shares times the distance from the entry price, which stays, becomes the fill price on a flip, or zero when flat; total cost is the entry price times the shares held |
| `PositionBook.FillDrift` | oms/oms.hpp:1467-1493 | reductions, closes, flips and openings are exact; an increase is off by at most half a unit per share held |
| `PositionBook.FillDriftIff` | oms/oms.hpp:1467-1493 | at any prices, one fill keeps within its slack if and only if it reduces, closes or flips, or the average it leads to rounds well |
| `PositionBook.RunDrift` | oms/oms.hpp:1467-1493 | over every run of fills at non-negative prices, realized profit less book value plus cash spent is at most the sum over increases of half the position |
| `PositionBook.RoundTrip` | oms/oms.hpp:1467-1493 | from flat to flat the realized profit is the cash taken in, up to that rounding |
| `Oms.OrderManager.SubmitOrder` | oms/oms.hpp:231-293 | validation, both pre-trade checks, order creation and pending reservation |
| `Oms.OrderManager.FillOrder` | oms/oms.hpp:300-388 | only working orders fill, over-fills are clamped, quantity flows from pending to net: the effect that `OmsLaws.FillLaw` states |
| `Oms.OrderManager.CancelOrder` | oms/oms.hpp:392-416 | releases the unfilled remainder of a working order |
| `Oms.OrderManager.ReplaceOrder` | oms/oms.hpp:429-469 | re-validated amend that shifts pending by the change in remainder, or no change |
| `Oms.OrderManager.AmendQuantity` | oms/oms.hpp:479-486 | reduction only, through replace |
| `Oms.OrderManager.CancelEvery` | oms/oms.hpp:494-503 | in whatever order the map is walked, retires every working order and returns their number |
| `Oms.CancelAllReleases` | oms/oms.hpp:494-503 | afterwards nothing is pending on any symbol |
| `OmsLaws.SubmitLaw` | oms/oms.hpp:231-293 | each refusal is given exactly for its own reason, in the order of the checks, and changes nothing; otherwise the next id holds the order as given under the first eight characters of its symbol, with its quantity reserved, and no other order or symbol changes |
| `OmsLaws.FillLaw` | oms/oms.hpp:300-388 | the answer is min(qty, quantity - filled) for a working order, else 0 and nothing changes; filled grows by the answer, notional by answer times price, the fill count by one; FILLED if and only if nothing remains, else PARTIAL; pending becomes net, fees and round trips follow; no other order or symbol changes |
| `OmsLaws.CancelLaw` | oms/oms.hpp:392-416 | a working order is cancelled with all else of it kept, its symbol's pending gives back the unfilled part, and nothing else changes |
| `OmsLaws.ReplaceLaw` | oms/oms.hpp:429-469 | passes exactly for a working order, a valid price, a quantity not below the filled one, and both limits on the change; then price, quantity and status are new and pending moved by the change in quantity |
| `OmsLaws.AmendLaw` | oms/oms.hpp:479-486 | only a working order, only down to what is filled, at its own price |
| `OmsRuns.StepKeepsLedger` | oms/oms.hpp:231-503 | every operation keeps order states consistent and pending equal to the open remainders |
| `OmsRuns.EveryRunBalances` | oms/oms.hpp:231-503 | every run from a balanced state keeps each symbol's pending quantity equal to the signed sum of the unfilled remainders of its SENT and PARTIAL orders |
| `OmsRuns.SubmitBalancesIff` | oms/oms.hpp:254-284 | an accepted submission keeps that if and only if its quantity is below 2^31 |
| `OmsRuns.ReplaceBalancesIff` | oms/oms.hpp:446-467 | an accepted replace keeps it if and only if the new quantity is below 2^31 |
| `OmsRuns.HugeBuyBooksAsSell` | oms/oms.hpp:1450-1452 | a buy of 4294967246 shares is accepted and reserved as a sale of 50 |
| `OmsRuns.HugeReplaceBooksAsSell` | oms/oms.hpp:446-467 | a replace of 100 shares to 4294967246 is accepted and reserved as a sale of 50 |
| `OmsRuns.EveryRunNets` | oms/oms.hpp:300-388 | every run keeps a symbol's net position equal to the signed sum of what its orders executed |
| `OmsRuns.ReachableStates` | oms/oms.hpp:231-503 | both hold in every state reachable from an empty system by operations of quantities below 2^31 |
| `OmsRuns.EveryRunAffordable` | oms/oms.hpp:243-252 | no run holds an order with a bad price, size or symbol or beyond the value limit |
| `OmsRuns.AmendOnlyMeetsPositionLimit` | oms/oms.hpp:479-486 | a reduction of an accepted order fails only on the position limit |
| `OmsRuns.FillKeepsExposure` | oms/oms.hpp:363-369 | a fill leaves net plus pending of every symbol unchanged |
| `OmsRuns.CancelFreeRunStaysWithin` | oms/oms.hpp:254-261 | over every run of submits, fills, replaces and amends, net plus pending stays within the limit |
| `OmsRuns.CancelBreaksLimit` | oms/oms.hpp:392-416 | buy 100, sell 200, cancel the buy: past a limit of 100 |
| `OmsRuns.CancelSafeIff` | oms/oms.hpp:254-261 | the limit holds through every sequence of fills and cancels if and only if net plus each side's open quantity alone is within it |
| `OmsRuns.EveryRunEvolves` | oms/oms.hpp:300-469 | orders keep their identity, never un-fill, and never leave FILLED or CANCELLED |
| `OmsRuns.EveryRunAccounts` | oms/oms.hpp:363-388 | over every run of the whole system at non-negative fill prices, each symbol's profit, book value and cash agree up to the rounding of its increases |
| `OmsRuns.ReachableAccounts` | oms/oms.hpp:363-388 | the same from an empty system: realized profit less book value is the cash taken in, up to that rounding |
| `ItchBook.EveryStreamIsAccounted` | itch-parser/itch_book.hpp:85-197 | every event stream keeps, per side, shares added equal to resting plus executed plus pulled plus replaced away plus overwritten; each level equal to its orders plus what was overwritten there; `adds_` short by one for each replace to zero and never below the orders held |
| `ItchBook.StreamFromEmpty` | itch-parser/itch_book.hpp:85-197 | the same after every stream from an empty book |
| `ItchBook.EventKeeps` | itch-parser/itch_book.hpp:102-197 | the same for one event |
| `ItchBook.LockstepIffNoReuse` | itch-parser/itch_book.hpp:85-197 | from an empty book, levels equal the sums of resting orders if and only if no event put shares under a live reference |
| `ItchLaws.EveryEventObeys` | itch-parser/itch_book.hpp:85-197 | after every stream from an empty book: an execution or part cancel lowers the order and its level by min(qty, shares), erases either at zero and books that number as executed or pulled on the resting side; a delete takes the whole order; a replace takes the original out and rests the new price and size on its side; an add rests as sent; no other order, level or counter changes |
| `ItchLaws.ReduceLaw` | itch-parser/itch_book.hpp:85-98 | a reduction by qty lowers exactly one order and one level by min(qty, shares) |
| `ItchLaws.ReplaceLaw` | itch-parser/itch_book.hpp:181-197 | the new order has its own price and size on the original's side; `adds_` loses one exactly on a replace down to nothing |
| `ItchHandler.ITCHOrderBook.Take` | itch-parser/itch_book.hpp:85-98 | clamped reduction of an order and its level, or an orphan: the effect that `ItchLaws.ReduceLaw` states |
| `ItchHandler.ITCHOrderBook.AddShares` | itch-parser/itch_book.hpp:102-108 | a resting order and its level; nothing for zero shares |
| `ItchHandler.ITCHOrderBook.ExecuteShares` | itch-parser/itch_book.hpp:109-159 | executed shares attributed to the resting side, as `ItchLaws.EveryEventObeys` states |
| `ItchHandler.ITCHOrderBook.CancelShares` | itch-parser/itch_book.hpp:160-171 | pulled shares attributed to the resting side, as `ItchLaws.EveryEventObeys` states |
| `ItchHandler.ITCHOrderBook.Delete` | itch-parser/itch_book.hpp:172-180 | the whole remainder is pulled |
| `ItchHandler.ITCHOrderBook.Replace` | itch-parser/itch_book.hpp:181-197 | the original goes, the new order keeps its side |
| `ItchHandler.Audit` | itch-parser/itch_book.hpp:1273-1285 | returns the first invariant that fails, in the source's order, computed by rebuilding the totals in any visiting order |
| `ItchHandler.AuditZeroIff` | itch-parser/itch_book.hpp:1259-1285 | the audit returns 0 if and only if levels and orders are in step |
| `ItchHandler.AuditZeroIffNoReuse` | itch-parser/itch_book.hpp:1259-1285 | on every stream from an empty book it returns 0 if and only if no live reference was reused |
| `ItchHandler.ReuseFailsAudit` | itch-parser/itch_book.hpp:1263-1266 | a repeated add, and a replace onto another live reference, fail the audit |
| `ItchHandler.WalkFillable` | itch-parser/itch_book.hpp:368-380 | the loop that stops at the limit sums every level within it |
| `ItchHandler.WalkPrice` | itch-parser/itch_book.hpp:387-403 | the price of the last level a sweep needs |
| `ItchHandler.WalkLevels` | itch-parser/itch_book.hpp:411-430 | the number of levels a sweep needs, or -1 |
| `ItchHandler.WalkFill` | itch-parser/itch_book.hpp:611-631 | shares and value of a best-first sweep |
| `ItchHandler.WalkTop` | itch-parser/itch_book.hpp:733-745 | shares on the top n levels |
| `ItchHandler.ITCHOrderBook.FillShortfall` | itch-parser/itch_book.hpp:660-665 | what a sweep of the whole side leaves unfilled |
| `ItchHandler.QueriesAgree` | itch-parser/itch_book.hpp:368-430 | for every size and every book of positive prices that events can build: `levels_to_fill` is the least k with opposite `cumulative_qty(k)` covering it, a limit's `fillable_shares` cover it if and only if it is no better than `price_to_fill`, and both fail exactly when `fill_shortfall` is positive |
| `ItchQueries.LevelsToFillIsLeast` | itch-parser/itch_book.hpp:411-430 | the least number of levels whose depth reaches the size |
| `ItchQueries.PriceToFillIsTightest` | itch-parser/itch_book.hpp:387-403 | a limit can fill the size if and only if it is no better than `price_to_fill` |
| `ItchQueries.SweepIsBest` | itch-parser/itch_book.hpp:611-631 | no other way to trade that many shares on the side is better than the sweep |
| `FixText.ComputeChecksum` | fix-protocol/fix_parser.hpp:86-91 | the byte sum modulo 256 |
| `FixText.ChecksumDetects` | fix-protocol/fix_parser.hpp:86-91 | one changed byte always changes it |
| `FixText.AtoiDecimal` | fix-protocol/fix_parser.hpp:301-302 | a printed number reads back |
| `FixMessage.FIXMessage.ParseMessage` | fix-protocol/fix_parser.hpp:95-165 | clip, delimiter detection, field scan and both validations |
| `FixMessage.ScanText` | fix-protocol/fix_parser.hpp:128-161 | the cursor loop with its 32-field limit computes the segment-by-segment scan |
| `FixMessage.BuildMessage` | fix-protocol/fix_parser.hpp:296-317 | header, body and checksum trailer; nothing when the buffer is too small; an overrun of the header's scratch area is reported as such |
| `FixLaws.ClipLaw` | fix-protocol/fix_parser.hpp:107-115 | the parser reads the longest prefix of at most 1023 bytes without a NUL |
| `FixLaws.FieldLaw` | fix-protocol/fix_parser.hpp:137-152 | text, equals sign and value are a field exactly when the text reads as a positive number; of a value the first 31 bytes are kept |
| `FixLaws.FieldsLaw` | fix-protocol/fix_parser.hpp:128-161 | of any text the first 32 fields are kept, in order |
| `FixLaws.AtoiLaw` | fix-protocol/fix_parser.hpp:141-144 | numbers are read past blanks and one sign, up to the first byte that is not a digit |
| `FixLaws.FindFieldIsFirst` | fix-protocol/fix_parser.hpp:68-73 | a look-up finds the first field with the tag, if there is one |
| `FixLaws.ValidLaw` | fix-protocol/fix_parser.hpp:282-289 | valid exactly with tags 8, 9, 35 and 10 present and both checks passed |
| `FixLaws.BuildLaw` | fix-protocol/fix_parser.hpp:296-317 | the buffer is refused exactly when header, body and sixteen bytes do not fit; a built message has the length of its parts |
| `FixRoundTrip.RoundTrip` | fix-protocol/fix_parser.hpp:95-317 | a built message parses to its begin string, body length and every body field in order, with checksum and body length valid; it is valid if and only if the body has tag 35 |
| `FixRoundTrip.FieldsRoundTrip` | fix-protocol/fix_parser.hpp:128-317 | encoding a list of fields, building and parsing gives exactly that list |
| `FixRoundTrip.JoinSegments` | fix-protocol/fix_parser.hpp:128-160 | every delimiter-terminated body is its segments |
| `FixRoundTrip.CorruptionDetected` | fix-protocol/fix_parser.hpp:361-374 | changing one value byte before the trailer to another byte that is no delimiter and not NUL makes the checksum fail |
| `FixRoundTrip.ByteChangeDetected` | fix-protocol/fix_parser.hpp:361-374 | for every built message without NUL that fits the parser, any one byte before the trailer, of tags and delimiters too, changed to any byte but NUL makes it invalid unless a checksum field then starts before the trailer |
| `FixRoundTrip.ChecksumPassesIff` | fix-protocol/fix_parser.hpp:361-366 | for every text the parser reads whole, the checksum is present if and only if a checksum field is kept, is computed over the bytes before the last one kept, and passes if and only if the first one kept names that sum |
| `FixLaws.LengthPassesIff` | fix-protocol/fix_parser.hpp:128-374 | for every such text, the body length passes if and only if the first length field kept names the distance from the segment behind the last length field to the last checksum field |
| `FixRoundTrip.ByteChangePassesIff` | fix-protocol/fix_parser.hpp:361-366 | a one-byte change that leaves the trailer a segment of its own and fields that fit passes the checksum if and only if the first checksum field names the new sum |
| `FixRoundTrip.BodyChangeValidIff` | fix-protocol/fix_parser.hpp:282-374 | such a change inside the body, without a second tag 9, leaves a valid message if and only if it has a message type and its first checksum field names the new sum |
| `FixRoundTrip.TagChangeUndetected` | fix-protocol/fix_parser.hpp:361-366 | a message whose tag 20 changed to 10 passes every check: the first checksum field is compared with the sum up to the last |

## Left out

- Weak memory ordering: the queues' atomics are sequentially consistent interleaved steps, and tickets and positions are unbounded naturals without the 2^64 wrap.
- Queues as heap objects: they are transition systems over values, so destruction, alignment and non-trivial payload types are not captured; `pos & MASK` is the remainder for any size, not only powers of two.
- `MPSCQueue::empty`, `SPSCQueue::empty` and `full`, `bytes_used`: single loads already covered by the refusal results.
- Machine integers: level totals, net and pending quantities, sums and counters are unbounded; only the narrowing of a 32-bit unsigned quantity to signed is modelled. Feed sequence numbers are unbounded naturals.
- Bitmap words: 64 booleans instead of a 64-bit integer; shifts and masks act on them bit by bit.
- The flat book's id map and the maps of the OMS and ITCH books: value maps held in a field, so hashing, iterators and references into them are not captured.
- Floating point: prices are integer ticks or fixed-point units; `to_fixed`, `to_float`, `to_ticks`, VWAP, rates and ratios are not modelled. `amend_quantity` hands the order's own fixed-point price to replace.
- Clocks, timestamps of orders, printed warnings.
- OMS-wide counters (submits, fills, notionals, price improvement, reject counts), `purge_expired` (the `cancel_all` loop with a filter) and the read-only metrics.
- The ITCH tape statistics (run lengths, tick direction, largest print, reprice distance) and the other read-only book metrics.
- `atoi` overflow: numbers in messages are unbounded.
- BuildMessage: returns the bytes instead of writing them into the caller's buffer; for a header of 64 bytes or more the source copies past its scratch area, so the model only says that it does.
- FIX session and order-state helpers, market-data codecs, sequencer, waitable queue, network, logging, benchmarks and bindings: input/output or easy members.
