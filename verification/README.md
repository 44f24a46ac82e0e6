# Verification of lobster's order book

lobster turns a stream of exchange messages into live limit order books and publishes depth
snapshots of them. This project models that system in Dafny and proves what it promises.

A book (`lob_px_list_t`) is two dense price-indexed arrays of aggregate quantities, a cached cursor into
each of them at the best price, and an index from order number to array slot. The messages of two
exchanges change it in place through four handlers. What it stands for is much simpler: the orders that
are live, each with a side, a price and what is left of it. The main results connect the two.

- `Machine.dfy`: the fixed-width integers and the narrowing of 64-bit message quantities.
- `Book.dfy`: the book as a value and the effect of every handler on it. One ladder of quantities with
  its cursor is a `Half`, and the operations are written once for both sides wherever the two sides of
  the source are the same code turned around.
- `Events.dfy`: what a message says, apart from its encoding.
- `Orders.dfy`: live orders, what an event does to them, and the discipline of a well-behaved feed.
- `Refinement.dfy`, `Cursors.dfy`, `Runs.dfy`, `Snapshot.dfy`: the book against the live orders, for one
  message and for whole runs, in mathematical and in 32-bit arithmetic, up to the published snapshot.
- `Horizon.dfy`: what every snapshot shows after any valid run, right cursor or wrong.
- `Recovery.dfy`, `Shortfalls.dfy`: what puts a wrong cursor right again; the shortest inputs on which
  the code falls short.
- `Cancels.dfy`, `Mirror.dfy`: the two cancel paths compared; buying and selling as mirror images.
- `PxList.dfy`, `Service.dfy`: the book and the service as classes, updated in place with the source's
  loops, each method proved to do what the value-level definition says.
- `Sharding.dfy`: which worker a message goes to.
- `LockQueue.dfy`, `Interleaving.dfy`: the linked queue, called sequentially, and shared by a producer
  and a consumer.
- `Fields.dfy`, `RedisLine.dfy`: field splitting and the published text line. `Sequences.dfy` is a helper.

## What a run is assumed to keep

`Orders.ValidEvent` is all that conservation, index and levels need: an added order's number is not live,
its quantity positive and its price within the limits; a Shanghai delete names a live order with its own
side and price; a number in a trade or cancel report is zero, or live on its own side with at least that
much left, or unknown: never added, or forgotten when a report left nothing at its price. It speaks of
live orders and numbers only, never of the book. The cursors need more, and `Orders.Discipline` says which
results use what: `Priority` per side (a trade takes from the best price of that side) and, for asks only,
`Drains` (a Shenzhen cancel of a sell order at the best price takes everything left there). Each symbol of
a mixed feed has a discipline of its own. `Runs.Fits` bounds what is outstanding at one price by 2^31-1.

Without any discipline, `Horizon.SnapshotOfEveryRun` still says exactly what a snapshot shows: each side has
a horizon, a price that `Horizon.Next` moves by what happens to the live orders alone, and the snapshot is
the best levels of the live orders not better than it. `Recovery.SnapshotAfterAnyRun` says after which
messages that is all of them.

Messages the program ignores by design do nothing to the live orders either: Shanghai trades flagged
neither 'B' nor 'S' (ordtrd_sh.cpp:95), unknown codes, Shenzhen prices out of range.

## Where the code falls short, and exactly when

- A Shenzhen sell cancel at the best ask steps over the level instead of looking at it first
  (ordtrd_sz.cpp:129-140; the buy cancel looks first, ordtrd_sz.cpp:87-96). From a right cursor the result
  is right if and only if the cancel drains the level (`Cursors.CancelKeepsBest`, `Cursors.StepBest`,
  `Snapshot.StepSnapshot`). `Shortfalls.PartialSellCancelHidesTheAsk` gives two messages after which
  shares are for sale and the snapshot shows none; in general it shows the asks above the cancelled price
  and no other (`Horizon.SellCancelShows`). The Shenzhen cancel is the only message that treats
  the two sides differently, and does so exactly when it leaves something at the cursor
  (`Mirror.StepMirror`).
- A trade assigns the cursor without comparing (ordtrd_sh.cpp:104-116): right if and only if it hits the
  best level (`Cursors.TradeKeepsBest`). Wherever the cursor was, what shows afterwards is what is live at
  the traded price or worse (`Horizon.TradeShows`). `Shortfalls.TradeAwayHidesTheBid` gives three messages after
  which the snapshot misses the better of two bids.
- A wrong cursor stays wrong until a message puts it right: an order at least as good as every live one,
  a trade at the best price, or a cancel of the only price ahead, and nothing else
  (`Recovery.StepFromAnywhere`).
- The linked queue's last-element branch (lockqueue.h:74-84) races with the producer.
  `Interleaving.GuardIsExact` says when it is safe, `Interleaving.RaceIsReachable` gives an interleaving
  from the empty queue that writes to a deleted node. TODO.txt:8 records that the queue has bugs.
- A level overflows once more than 2^31-1 is outstanding at its price, and only then
  (`Runs.StepNarrows`). `Shortfalls.OverflowHidesTheBid` gives one order that no snapshot shows.
- `getPxList` pushes before it checks the depth (ordtrd_pxlist.cpp:16-18): a snapshot keeps to its depth
  if and only if the depth is not 0 or the side is empty, and depth 0 returns what depth 1 does
  (`Snapshot.DepthIsKept`).

## Model

| member | source | states |
|---|---|---|
| BookModel.LevelCorrespondence | ordtrd_sz.cpp:11-18 | with 32-bit wrap-around the range guard passes exactly for prices whose wrapped level is in bounds, negative prices included, and that level's price is the message's price |
| Machine.NarrowingIsExact | lob.h:41 | narrowing a 64-bit amount to the level's 32 bits loses nothing whenever the resulting level fits, however large the amount |
| Machine.NarrowingWraps | lob.h:41 | whatever the amount, a level becomes the 32-bit number congruent to the true result |
| BookModel.Scan | ordtrd_sh.cpp:107-113 | a rescan stops at a filled level not better than where it started, or at null |
| BookModel.ScanSkipsEmpty | ordtrd_sh.cpp:129-135 | a rescan passes over no filled level |
| Events.HandlersFollowMeaning | service.cpp:263-283 | guards and wrapped levels included, a handler can carry out a message exactly when its event has a price within the limits and numbers on the ladders a trade needs, and then changes the book as that event says |
| Orders.SumSplit | ordtrd_sh.cpp:19 | the aggregate of a set of orders does not depend on the order in which they are added up |
| Orders.SumBounds | ordtrd_sh.cpp:104 | a level is empty exactly when no live order is there, and holds at least each of its orders |
| Refinement.AddConserves | ordtrd_sh.cpp:17-19 | whatever the quantity and the cursor, an order adds it to the ladder's total, at one level |
| Refinement.TakeConserves | ordtrd_sz.cpp:82-86 | a report takes it from one level, below zero if need be |
| Refinement.DeleteConserves | ordtrd_sh.cpp:43-47 | a delete takes no more than its level has |
| Refinement.AddRefines | ordtrd_sh.cpp:15-42 | a new order keeps levels, index and totals in step with the live orders |
| Refinement.DeleteRefines | ordtrd_sh.cpp:43-83 | so does a delete by price of a live order |
| Refinement.RemoveRefines | ordtrd_sz.cpp:172-193 | so does a trade or cancel by number, live or unknown, and it leaves the other side alone |
| Refinement.EraseLosesNothing | ordtrd_sz.cpp:84-86 | erasing an index entry when its level is empty never erases an order that stays live |
| Refinement.ForgetsTogether | ordtrd_sz.cpp:84-86 | the index erases a number exactly when nothing is left at its price |
| Refinement.LiveWithinLevel | ordtrd_sh.cpp:17-19 | a live order's level is in bounds, holds the sum of the orders at its price, and at least its own quantity |
| Refinement.StepRefines | ordtrd_sz.cpp:6-217 | one valid message: no access out of bounds; every level is again the sum of its live orders, every live order is indexed at its own level, each side's total is added less traded less cancelled |
| Cursors.TradeKeepsBest | ordtrd_sh.cpp:101-116 | a trade leaves a right cursor right if and only if it is at the best level |
| Cursors.CancelKeepsBest | ordtrd_sz.cpp:87-96 | a Shenzhen cancel leaves a right cursor right if and only if it is a buy, elsewhere, or drains the level |
| Cursors.DeleteKeepsBest | ordtrd_sh.cpp:45-61 | a Shanghai delete always leaves a right cursor right |
| Cursors.BestIsCursor | ordtrd_sh.cpp:114-116 | where the cursor is right, an order has no better-priced rival exactly when it is at the cursor |
| Cursors.StepBest | ordtrd_sz.cpp:129-140 | from a right cursor a valid message leaves it right if and only if its trades keep price priority on that side and, for asks, a cancel at the best price drains it |
| Cursors.StepSane | ordtrd_sh.cpp:95-139 | without price priority or draining: quantities stay non-negative and cursors stay null or at a filled level, in either arithmetic |
| Cursors.ValidIsSafe | ordtrd_sz.cpp:172-214 | feed discipline implies the weaker safety that keeps cursors alive |
| Cursors.RunSane | ordtrd_sz.cpp:118-140 | the same over every run |
| Runs.RunRefines | ordtrd_sh.cpp:5-142 | levels, index, totals and the cursors the discipline supports, over every valid run |
| Runs.ClampIsIdle | ordtrd_sh.cpp:45-47 | on a valid Shanghai delete the clamp at zero changes nothing, in mathematics and, where the levels fit, in 32 bits |
| Runs.ClampStaysIdle | ordtrd_sh.cpp:45-47 | nor in any state the 32-bit book reaches from empty by a valid run that fits |
| Runs.StepNarrows | lob.h:37-42 | 32-bit and mathematical quantities agree after a valid message if and only if every level of the result fits |
| Runs.RunNarrows | ordtrd_sz.cpp:26 | a valid run whose levels fit gives the same book in 32 bits as in mathematics |
| Runs.MachineRunRefines | ordtrd_sz.cpp:172-214 | from the empty book in 32 bits, every valid run that fits: levels, index, conservation and best-price cursors |
| Snapshot.SnapshotShape | ordtrd_pxlist.cpp:10-38 | from merely alive cursors: a snapshot starts at the cursor, is strictly ordered, positive, within the depth, and skips no filled level |
| Snapshot.DepthIsKept | ordtrd_pxlist.cpp:16-18 | a snapshot has at most `depth` levels if and only if the depth is not 0 or the side is empty; depth 0 gives what depth 1 gives |
| Snapshot.SnapshotPrefix | ordtrd_pxlist.cpp:17-19 | a smaller depth gives a prefix of a larger one |
| Snapshot.DepthIsUnique | ordtrd_pxlist.cpp:5-41 | at most one list is the best levels of given orders, so the definition leaves nothing open |
| Snapshot.SnapshotIffCursor | ordtrd_pxlist.cpp:10-36 | the snapshot is the best levels of the live orders if and only if the cursor is at the best one |
| Snapshot.StepSnapshot | ordtrd_sz.cpp:118-142 | exactly when the snapshot is still right after a message |
| Snapshot.SnapshotAfterRun | ordtrd_pxlist.cpp:5-41 | after every run that keeps price priority and fits in 32 bits, the snapshot of any depth is exactly the best levels of the live orders; asks also need draining |
| Horizon.AddSees | ordtrd_sh.cpp:20-26 | from any cursor: an order better than the cursor's level becomes what the cursor looks from, any other leaves that as it was |
| Horizon.DeleteSees | ordtrd_sh.cpp:45-61 | a delete of any quantity leaves the cursor at the first filled level from where it looked before |
| Horizon.TradeSees | ordtrd_sz.cpp:177-190 | a trade of any quantity, from any cursor, leaves it at the first filled level from the traded one on, null if and only if there is none |
| Horizon.CancelSees | ordtrd_sz.cpp:87-96 | a buy cancel keeps where the cursor looks from; a sell cancel at the cursor leaves it at the first filled level above, whether or not something is left below |
| Horizon.ElsewhereSees | ordtrd_sz.cpp:80-87 | a cancel by a number of the other ladder leaves that ladder's cursor where it is, which stays right exactly unless it drains its level |
| Horizon.SameNumberTwice | ordtrd_sz.cpp:74-162 | a cancel that names one number in both places and drains its level leaves the cursor right for what it looked for exactly if the number is a buy order's or off the cursor |
| Horizon.SeesOneCursor | ordtrd_sz.cpp:87-96 | quantities and the level looked from determine the cursor, so the five statements above fix every handler's cursor |
| Horizon.SnapshotOfShown | ordtrd_pxlist.cpp:10-38 | the snapshot of a side is exactly the best levels of the live orders not better than its horizon |
| Horizon.StepShows | ordtrd_sz.cpp:6-217 | after any valid message from any cursor, exactly what the moved horizon shows |
| Horizon.TradeShows | ordtrd_sh.cpp:101-116 | after a trade of a live order, from any live cursor: the best levels of what is then live at its price or worse |
| Horizon.SellCancelShows | ordtrd_sz.cpp:129-139 | after a Shenzhen cancel at the best ask, from a right cursor: the best levels of the asks above that price, whatever is left at it |
| Horizon.RunShows | ordtrd_pxlist.cpp:5-41 | from any state and over any valid 32-bit run that fits, what the moved horizons show |
| Horizon.SnapshotOfEveryRun | ordtrd_pxlist.cpp:5-41 | from the empty book, after every valid 32-bit run that fits, with no other discipline, both sides of the snapshot of any depth are exactly the best levels of the orders shown |
| Recovery.TradeRecovers | ordtrd_sz.cpp:180-190 | from any live cursor, a trade leaves it right if and only if no filled level is better |
| Recovery.CancelRecovers | ordtrd_sz.cpp:84-96 | from a wrong cursor, a cancel puts it right if and only if it drains the only filled level ahead of it |
| Recovery.CursorFromAnywhere | ordtrd_sz.cpp:55-217 | right cursor or wrong, exactly when a valid message leaves it right |
| Recovery.StepFromAnywhere | ordtrd_pxlist.cpp:10-36 | and the snapshot after the message is right exactly then |
| Recovery.SnapshotAfterAnyRun | ordtrd_pxlist.cpp:5-41 | after every valid 32-bit run that fits, with no other discipline, the snapshot following one more message is right exactly when that message leaves the cursor right |
| Shortfalls.PartialSellCancelHidesTheAsk | ordtrd_sz.cpp:129-134 | a run within every other rule whose snapshot misses a live ask |
| Shortfalls.TradeAwayHidesTheBid | ordtrd_sh.cpp:114-116 | a run within every rule but price priority whose snapshot misses the better of two live bids |
| Shortfalls.OverflowHidesTheBid | lob.h:41 | one order within every rule but the bound on a level, after which the 32-bit book differs and its snapshot shows no bid |
| Cancels.CancelPathsAgree | ordtrd_sz.cpp:74-162 | Shanghai delete and Shenzhen cancel of the same quantity leave equal levels, equal entries for live orders, and equal cursors unless a sell cancel at the cursor leaves its level filled |
| Mirror.MirrorLevel | lob.h:55-61 | reflecting a price inside the limits reflects its level, wrap-around included |
| Mirror.ScanMirror | ordtrd_sh.cpp:51-59 | the downward and the upward rescan are mirror images |
| Mirror.CancelMirror | ordtrd_sz.cpp:79-141 | the two Shenzhen cancels of one ladder are mirror images if and only if away from the cursor or on a drained level |
| Mirror.CancelsMirror | ordtrd_sz.cpp:74-162 | a cancel report commutes with the reflection of the whole book if and only if each number it names is unknown, on the other ladder, off the cursor, or drains its level |
| Mirror.HalvesCommute | ordtrd_sh.cpp:97-140 | the buyer's and the seller's half of a trade or cancel commute |
| Mirror.LegalMirror | lob.h:55-61 | a message can be carried out exactly when its reflection can |
| Mirror.MirrorTwice | lob.h:55-61 | reflecting a book twice gives it back |
| Mirror.StepMirror | ordtrd_sz.cpp:6-217 | a message commutes with reflecting prices and swapping sides if and only if it is not a Shenzhen cancel that leaves something at the cursor |
| Mirror.RunMirror | ordtrd_sh.cpp:5-142 | a run of such messages, reflected, ends in the reflected book: levels, cursors and index |
| Mirror.NoCancelsReflect | ordtrd_sh.cpp:5-142 | runs without Shenzhen cancels, so all Shanghai runs, are of that kind |
| PxLists.PxList.constructor | service.cpp:316-331 | a new book has zero quantities, null cursors and an empty index, whatever the limits |
| PxLists.PxList.OnOrderSH | ordtrd_sh.cpp:5-84 | the Shanghai order handler, in place, leaves exactly the value-level book |
| PxLists.PxList.OnTradeSH | ordtrd_sh.cpp:88-142 | so does the Shanghai trade handler |
| PxLists.PxList.OnOrderSZ | ordtrd_sz.cpp:6-51 | so does the Shenzhen order handler |
| PxLists.PxList.OnTradeSZ | ordtrd_sz.cpp:55-217 | so does the Shenzhen trade and cancel handler |
| PxLists.PxList.OnMessage | service.cpp:263-283 | the handler chosen by kind and exchange makes the value-level step |
| PxLists.PxList.AddBuyer | ordtrd_sh.cpp:15-27 | adds to the bid level, indexes the order, raises the cursor if the price is better |
| PxLists.PxList.AddSeller | ordtrd_sh.cpp:28-41 | the same for asks, lowering the cursor |
| PxLists.PxList.DeleteBuyer | ordtrd_sh.cpp:44-62 | takes from the bid level with the clamp, rescans below an emptied cursor, leaves the index alone |
| PxLists.PxList.DeleteSeller | ordtrd_sh.cpp:63-82 | the same for asks, rescanning above |
| PxLists.PxList.TradeBuyer | ordtrd_sz.cpp:172-193 | takes from the indexed bid level, erases the entry of an emptied level, assigns or rescans the cursor |
| PxLists.PxList.TradeSeller | ordtrd_sz.cpp:194-215 | the same for asks |
| PxLists.PxList.TakeFrom | ordtrd_sz.cpp:80-82 | taking through an indexed pointer changes that one level of that one array |
| PxLists.PxList.CancelBuyer | ordtrd_sz.cpp:76-97 | takes from whatever level the number leads to and rescans from it if the bid cursor is there |
| PxLists.PxList.CancelSeller | ordtrd_sz.cpp:118-141 | takes from whatever level the number leads to and rescans from the level after it if the ask cursor is there |
| PxLists.PxList.RescanBids | ordtrd_sh.cpp:51-59 | the downward loop finds the first filled bid level |
| PxLists.PxList.RescanAsks | ordtrd_sh.cpp:128-135 | the upward loop finds the first filled ask level |
| PxLists.PxList.GetPxList | ordtrd_pxlist.cpp:5-41 | the two collecting loops return the value-level snapshot |
| Service.LegalIsPerSymbol | service.cpp:285-304 | a mixed run stays in bounds exactly when each symbol's own messages do |
| Service.Projection | service.cpp:285-304 | after a mixed run each book is what its own messages alone make of it |
| Service.InterleavingsAgree | service.cpp:285-304 | two interleavings with the same messages per symbol leave the same books |
| Service.SnapshotOfSymbol | service.cpp:371-382 | after any mixed feed the program can carry out, the snapshot of a symbol that started from its own limits is the best levels of its own live orders, as far as its discipline goes, and of those its horizons show in any case |
| Service.LobService.constructor | service.cpp:119-155 | start-up leaves, per listed symbol, one empty book over exactly that symbol's configured limits (zeros if it has none), no storage shared, nothing elsewhere |
| Service.FeedIsLegal | service.cpp:285-304 | a mixed feed whose symbols each keep a discipline of their own stays in bounds everywhere |
| Service.LobService.CreatePxList | service.cpp:316-331 | stores a fresh empty book in one slot and changes no other |
| Service.LobService.OnMessage | service.cpp:285-304 | a message changes its own symbol's book and no other |
| Service.LobService.ProcessAll | worker.cpp:9-46 | dispatching already decoded messages one after the other leaves what each symbol's handlers leave |
| Service.LobService.OnFanoutTimed | service.cpp:371-382 | one snapshot per listed symbol, in list order |
| Service.SampleAfterFeed | service.cpp:371-382 | end to end through the objects: after start-up from the configured limits and any mixed feed, every sampled record shows the best levels of its symbol's live orders as far as that symbol's own discipline goes, and of those its horizons show in any case |
| Sharding.SymnumOfWorker | service.cpp:120-123 | the share computed in 32 bits is the least with which all symbols fit on the workers |
| Sharding.NothingDropped | service.cpp:306-314 | every symbol below the configured number gets a worker; only keys past all shares are dropped |
| Sharding.OwnsRange | service.cpp:309 | each worker owns one contiguous range of keys |
| Sharding.Tight | service.cpp:120-123 | any smaller share would drop the last symbol |
| LinkedQueue.LockQueue.Enqueue | lockqueue.h:40-54 | appends one fresh node and its value, from the empty and the non-empty queue |
| LinkedQueue.LockQueue.Dequeue | lockqueue.h:66-91 | takes the first value and its node, or reports an empty queue, keeping head, tail and chain consistent |
| LinkedQueue.FirstInFirstOut | lockqueue.h:40-91 | a queue that appends and takes the first: delivered followed by left over is initial followed by enqueued, and every take that finds something delivers one |
| LinkedQueue.ServeAll | lockqueue.h:40-91 | any run of complete calls on the node chain delivers and leaves just that, so nothing is lost, repeated, reordered or held back |
| Interleaving.GuardedIsSafe | lockqueue.h:66-91 | one guarded access touches no deleted node and keeps the chain in order |
| Interleaving.InterleavingIsFifo | lockqueue.h:40-91 | every guarded interleaving delivers a prefix of the enqueued values in order, one for each dequeue that began while something was in the queue but the one under way, and never touches a deleted node |
| Interleaving.EveryFindDelivers | lockqueue.h:66-91 | from any state of the queue, a dequeue that found something delivers exactly one element |
| Interleaving.EmptyIsExact | lockqueue.h:67-70 | a dequeue reports an empty queue exactly when everything linked has been taken |
| Interleaving.LastIsExact | lockqueue.h:72-80 | the last-element branch is entered exactly for the last element, and its compare-and-swap succeeds when guarded |
| Interleaving.DequeueDelivers | lockqueue.h:66-91 | an undisturbed dequeue from a queue that is not empty delivers exactly the next value and ends |
| Interleaving.EnqueueArrives | lockqueue.h:40-54 | an undisturbed enqueue adds its value at the end, wherever the consumer is but inside the last-element branch |
| Interleaving.NothingStuck | lockqueue.h:40-91 | after any guarded interleaving that ends between calls, dequeues alone hand over everything enqueued |
| Interleaving.TouchesIsAll | lockqueue.h:40-91 | an access depends on, changes and deletes no node but those it is said to touch |
| Interleaving.AvoidingIsGuarded | lockqueue.h:86-90 | every interleaving that never enters the last-element branch is guarded |
| Interleaving.LostForever | lockqueue.h:77-83 | an element cut off from the chain is never delivered |
| Interleaving.GuardIsExact | lockqueue.h:74-84 | an access is guarded if and only if no guarded continuation touches a deleted node or loses an element |
| Interleaving.RaceIsReachable | lockqueue.h:74-84 | from the empty queue, an interleaving of exactly two enqueues that takes exactly one element touches a deleted node |
| Fields.GetLine | strutils.h:17 | one read takes the first field of what is left and its delimiter |
| Fields.SplitString | strutils.h:12-22 | the reading loop returns the split of its input |
| Fields.SplitJoin | strutils.h:12-22 | splitting a join of delimiter-free fields returns them if and only if the last is not empty |
| Fields.JoinSplit | strutils.h:17-19 | joining a split returns the text, less one trailing delimiter |
| Fields.TagIsLast | feed_tonglian_mdl_redis.cpp:71 | an appended tag is the last field and all earlier fields stay |
| RedisLine.FormatLine | fanout_redis.cpp:46-53 | the formatting loop prints price and quantity fields joined by commas |
| RedisLine.ToStringDenotes | fanout_redis.cpp:49 | printed numbers are non-empty, comma-free and read back as themselves |
| RedisLine.ToStringIsCanonical | fanout_redis.cpp:49 | a printed number is a sign if negative, then digits with no leading zero but zero's own, so reading back leaves one text per number |
| RedisLine.LineIsRecoverable | fanout_redis.cpp:46-63 | the line splits into exactly its two fields per level; only the empty list prints the empty line |
| RedisLine.LineIsInjective | fanout_redis.cpp:56-63 | different lists of levels print different lines |

## Left out

- Sockets, Redis, files, timers, logging, JSON configuration and start of threads: calls into libraries
  that are not part of this model.
- Prices arrive as integers: the conversion from decimal text through floating point is library rounding.
- Decoding of numeric fields and the message unions: messages arrive decoded. The feed routes some
  Shenzhen trades by another field than the decoder reads as the symbol, so nothing is claimed about
  which worker sees them.
- Several workers at once: where routing follows the symbol, a symbol has one worker, so workers only
  interleave messages of different symbols, and `Service.InterleavingsAgree` shows that the interleaving does not matter.
- Reads of a book while a handler runs: the handler locks are commented out in the source, so a snapshot
  is one atomic step here.
- Level timestamps, the stored price and side of a level: written and never used by what is proved.
- PxLists.PxList.OnTradeSH: a trade whose number is indexed on the other side, as when buyer and seller
  number are the same, would point one side's cursor into the other side's array and scan from one array
  into the other; a cursor is a level of its own array here. Cancels by such a number are covered.
- PxLists.PxList.OnTradeSZ: the same for Shenzhen trades.
- Mirror.StepMirror: assumes that the two numbers of a Shenzhen cancel, if both are known, lead to
  different ladders; two halves that meet on one ladder run in opposite order in the reflection.
- Service.LobService.ProcessAll: decoding and the worker's own queue; the messages arrive decoded.
- BookModel.LevelCorrespondence: assumes low <= high and a level count that fits in 32 bits, because the
  program allocates its arrays with that count.
- Sharding.SymnumOfWorker: assumes at least one worker, because the program divides by their number; with
  no symbols configured the share is zero and routing would divide by it.
- Interleaving.InterleavingIsFifo: accesses are sequentially consistent, and a node's address is never
  reused after deletion; the copy of the value is one step with the store of `head` that follows it, as
  no other thread writes the value.
- The mutex-protected list pair of the queue, `trim` and zero-padding of symbols: easy members only.
- The snapshot history, the CSV feed and generated protocol code: unfinished or not linked in.
