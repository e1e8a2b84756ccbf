# MiniMatch, verified

A Dafny model of the state machines in a deterministic trading system, and proofs of what they promise: a
matching engine, the market-data replicas behind it, an order management system with a crash-tolerant algo
scheduler, position accounting, a FIX codec and session with message recovery, and a drop-copy cache.

Run `dafny verify --verification-time-limit 0 dfyconfig.toml` in this directory: the default time limit per batch
is not what the proofs are sized for. Nothing here depends on files outside this directory.

## How the model is laid out

Where the program changes things in place, the model has a class (or a method with loops) whose methods are
proved equal to functions on values; the theorems are lemmas about those functions.

- **Matching engine.** `Trading` has the vocabulary. `BookSpec` is the abstract book: per side one sequence of
  resting orders, best price first and first come first served within a price; submit, cancel and replace are
  functions on it. `Matching` has the class over a fixed array of nodes with a free list, doubly linked
  queues per price, an id index and cached level totals; `BookRep`, `BookLink`, `BookUnlink`, `BookPool`,
  `BookState` and `BookWalk` are the representation invariant and its preservation, and every method is proved
  to do to the abstract book exactly what `BookSpec` says. `BookInvariants`, `BookPriority`, `BookLedger`,
  `BookSnapshot`, `QueueModel` and `QueueRuns` are the results about it; `BookLimits` and `BookReports` say what a
  client sees of it in plain comparisons, and `BookHash` what the state hash can tell. `VenueSpec` and `Venues` put
  many books behind one gate of halts and price bands, with snapshots; `VenueGate` says what passes it.
- **Market data.** `Depth` has levels and patches, `Level2` the replica with gap detection and recovery buffer,
  `Level2Recovery` its results, `Binance` and `Kraken`/`KrakenReplica` the two normalizers and the books
  downstream of them, `KrakenVenue` how both compare with the venue's best levels. Prices and quantities are exact
  reals and every epsilon is zero.
- **Orders.** `OmsSpec`, `Oms`, `OmsLedger` are the ledger of parents, children and fills, and `OmsGuards` says when
  each call is accepted, told from what has been filled; `OmsStorage` has the tables
  behind it and the way back from them; `OmsTearing` a crash inside the mutation callback; `OmsOverfill` says exactly
  when a parent is overfilled, `OmsPacing` has the discipline that prevents it over any number of lives, and `Algo`
  the worker that follows it, in a process that may die between any two effects and starts again from its tables.
  `Positions` is average-cost accounting, `PositionRecovery` what becomes of positions after a crash.
- **FIX.** `FixText`, `FixCodec`, `FixFraming` are text, messages and the byte stream (FIX 4.4, volume 1, message
  format and Appendix B); `FixSessions`, `FixResend`, `FixServing`, `FixRecovery` the session, resending, the server's
  side of a connection, and message recovery end to end (volume 2, "Message Recovery" and "Sequence Reset (Gap
  Fill)"); `FixAcceptance` says which messages a session accepts, and that no order reaches the gateway twice.
- **Drop copy.** `DropCopy` is the bounded cache and its per-order index.

`Ordered` holds what an ordered map gives: keys in increasing order; `Options` a value that may be missing.

## Promises that do not hold, and exactly when they do

- *A fill-or-kill order is filled completely or not at all.* Not once a self-trade policy meets the client's own
  orders: the check on acceptance counts all crossing liquidity. `FokCanFillInPart` is a case,
  `FokFillsExactlyWhenReachable` the exact condition.
- *A halt stops trading.* A replacement passes no gate. `HaltedVenueCanTrade` is a case, `WhenHaltedVenuesTrade` the
  exact condition: a replacement trades at a halted venue if and only if it gives up its place and then reaches
  liquidity its policy lets it have.
- *A replica follows every accepted diff.* An accepted diff that says nothing still takes a number, and the feeds
  drop it. `EmptyDiffLosesTheVenue` is a case; `Binance.UpdateMirrors` and `KrakenReplica.UpdateMirrors` say exactly
  when the book stays in step, `EmptyDiffDesynchronizes` what happens next.
- *The normalizer of a top-N feed has the venue's best levels.* Not when a level that has become one of them is not
  sent: `KrakenVenue.ForgottenLevel` is a case at depth one. `KrakenVenue.WhenTheNormalizerFollows` is the exact
  condition, for any message that tells the truth: it names each of the venue's best levels that was not held.
- *A snapshot is checked by its hash.* The hash does not tell every book from every other: where a price level ends
  cannot be read from the words it mixes. `DifferentBooksHashAlike` and `HashMayMistakeABook` are a case,
  `WhenWordsTellBooks` the exact condition: books that break into levels in the same places.
- *Updates need a snapshot first.* In the Binance synchronizer an invalid update received while it still waits for
  its snapshot makes it stale, and then the first range is taken without one. `InvalidUpdateSkipsTheSnapshot` says
  of any run of updates when that happens: if and only if an invalid one is followed by one that covers id 1.
  The feed never passes an invalid update on.
- *The order management system prevents overfills.* It checks a child against what its parent has left, not
  against children outstanding: `UnpacedClientsOverfill` is a case. `WhenCallsOverfill` and `WhenRunsOverfill` give
  the exact condition: every accepted fill is within what find_parent shows the parent to have left. The scheduler's
  discipline keeps to it: `PacedJobsNeverOverfill`, `LivesNeverOverfill`.
- *Realized profit is independent of the order of fills.* Only the total is (`OrderDoesNotMatter`);
  `RealizedDependsOnOrder` is a case, `RealizedAgrees` the exact condition, and `RealizedIsSafe` what can be checked
  beforehand: an account that ends flat, or is dealt in on one side only, realizes the same in any order.
- *An encoding parses back.* Exactly when its body length fits an int: `ParseUndoesWire`.
- *A resend never fails.* The server makes gap fills from comp ids it has moved from; with an empty one a resend
  throws exactly when the range holds an administrative message: `ResendThrowsWithoutCompIds`. The other results
  use the configured ids. An EndSeqNo of zero, "all that follow" in FIX 4.4, is rejected by the code and so by the
  model.
- *A message that is sent has a number of its own.* The server stores a message, writes it, and saves its numbers
  afterwards. If the connection ends in between, because the peer has gone, the store fails or the process dies, the
  next connection uses the number again: `InterruptedLogon` is a run with two messages 1,
  `InterruptionRepeatsANumber` says so of every interruption, and `WhenTheLogIsComplete` gives the exact condition:
  over any run the log is complete if and only if no connection was interrupted there.
- *A crash loses nothing.* Not inside the mutation callback, which saves a fill in three separate updates:
  `WhenACrashTearsAFill` says after how many of them what is restored balances.
- *The drop-copy cache answers for its table.* On a table larger than the cache, exactly when every order with
  rows too old for the cache also has one in it: `AgreementIsExact`.

## Model

| member | source | states |
|---|---|---|
| Matching.OrderBook.constructor | src/order_book.cpp:6-10 | a new book represents the empty abstract book: every node free, nothing indexed |
| Matching.OrderBook.EmitReport | src/order_book.cpp:62-66 | a report carries the next sequence number and reaches the handler last |
| Matching.OrderBook.EmitTrade | src/order_book.cpp:68-73 | a trade carries the next sequence number, the maker's id and price, and the taker's side |
| Matching.OrderBook.AllocateNode | src/order_book.cpp:27-32 | takes the last free node off the free list and touches nothing else, or throws when there is none |
| Matching.OrderBook.ReleaseNode | src/order_book.cpp:34-37 | blanks the node and returns it to the free list |
| Matching.OrderBook.Append | src/order_book.cpp:273-285 | linking a node behind its price level's tail keeps the whole representation and inserts the order behind everything at least as good |
| Matching.OrderBook.Rest | src/order_book.cpp:270-288 | resting an order makes the abstract queue `Insert` of the old one; allocation cannot fail |
| Matching.OrderBook.Unlink | src/order_book.cpp:290-306 | unlinking any node keeps lists, totals and counts exact and removes exactly that order from its queue |
| Matching.OrderBook.RemoveWithoutReport | src/order_book.cpp:308-314 | the order leaves queue, index and pool, nothing is emitted |
| Matching.OrderBook.Reduce | src/order_book.cpp:353-361 | a smaller quantity is subtracted from the node and its level's total alike |
| Matching.OrderBook.TradeWithHead | src/order_book.cpp:167-195 | one trade with the first order of a level: quantity, price, both emissions, and the head's removal when it is used up |
| Matching.OrderBook.PreventSelfTrade | src/order_book.cpp:97-165 | each self-trade policy cancels maker, taker or both as its name says, with the reports in the source's order |
| Matching.OrderBook.MatchLevel | src/order_book.cpp:82-204 | walking one level equals walking the abstract queue as far as that price reaches |
| Matching.OrderBook.MatchAgainst | src/order_book.cpp:75-207 | the nested loops leave exactly the queue, remainder, emissions and outcome of the abstract walk `Match`, and terminate |
| Matching.OrderBook.AvailableToMatch | src/order_book.cpp:44-60 | the cached totals of the crossing levels, capped at the order, equal the smaller of the order and all crossing quantity |
| Matching.OrderBook.Validate | src/order_book.cpp:12-25 | the reason and report for a bad order in the source's order of checks; nothing for a good one |
| Matching.OrderBook.Conclude | src/order_book.cpp:257-267 | after the walk: filled, partly filled, rested or expired, as reported |
| Matching.OrderBook.Submit | src/order_book.cpp:209-268 | submit on the linked representation is the abstract `Submit`: same new book, emissions and result; the BookLimits rows say what those are |
| Matching.OrderBook.Cancel | src/order_book.cpp:316-332 | cancel is the abstract `Cancel`, unknown order and client mismatch included |
| Matching.OrderBook.Replace | src/order_book.cpp:334-371 | replace is the abstract `Replace`: reduced in place, or requeued and resubmitted |
| Matching.OrderBook.BestOf | src/order_book.cpp:373-374 | the best price is the first order's, or 0 for an empty side |
| Matching.OrderBook.QuantityAt | src/order_book.cpp:376-383 | the cached total of a level is what its orders add up to |
| Matching.OrderBook.RestingOrders | src/order_book.cpp:399-416 | lists every resting order in priority order, bids then asks |
| Matching.OrderBook.Reset | src/order_book.cpp:430-441 | everything is free and empty again, sequence 0, policy and capacity kept |
| Matching.OrderBook.RestoreRestingOrders | src/order_book.cpp:418-428 | restoring is the abstract `Restore`; throws exactly at the first order that cannot rest |
| Matching.OrderBook.StateHash | src/order_book.cpp:443-468 | the hash is that of the abstract book: it does not see the node layout |
| BookInvariants.RunNumbersConsecutively | src/order_book.cpp:62-73 | over any run one book's emissions are numbered without a gap or repeat |
| BookInvariants.ReachableBooksAreUncrossed | src/order_book.cpp:209-371 | every reachable book is sorted, positive, within capacity, without duplicate ids, and best bid < best ask |
| BookInvariants.RunKeepsBook | src/order_book.cpp:209-371 | no submit, cancel or replace leads out of the well-formed books |
| BookInvariants.ReplaceNeverLosesTheOrder | src/order_book.cpp:334-371 | replace succeeds exactly when order, client, price and quantity are right: the resubmission inside it is never refused |
| BookPriority.TradesFollowPriority | src/order_book.cpp:75-207 | the walk's trades are exactly the shares price-time priority prescribes in closed form, in order and at maker prices |
| BookPriority.WalkRemainder | src/order_book.cpp:75-207 | what the taker has left, and when a policy cancels it, from the quantity it can reach |
| BookPriority.QueueAfterWalk | src/order_book.cpp:87-204 | the walk leaves exactly the survivors: unreached orders untouched, reached ones reduced or evicted |
| BookPriority.NoSelfTrade | src/order_book.cpp:97-165 | with a policy set no trade has one client on both sides |
| BookPriority.FokFillsExactlyWhenReachable | src/order_book.cpp:222-266 | a valid fill-or-kill order is accepted if and only if what it could reach without a policy covers it; refused it leaves every level alone; accepted it is filled completely if and only if what its policy lets it reach covers it |
| BookPriority.FokCanFillInPart | src/order_book.cpp:222-266 | a concrete accepted fill-or-kill order of 10 that trades 5 |
| BookPriority.RestingPolicy | src/order_book.cpp:212-267 | market, IOC and FOK orders never rest; a post-only order never trades and rests whole |
| BookLedger.RunBalances | src/order_book.cpp:62-73 | for every order id and run: resting before plus accepted equals resting after plus traded, cancelled, expired and given up |
| BookLedger.QuantityIsConserved | src/order_book.cpp:209-371 | from an empty book, accepted = traded + resting + cancelled or expired + given up in replacements |
| BookLimits.OrdersTradeWithinLimit | src/order_book.cpp:39-42 | every trade of an order is at a price no worse than its limit, unless it is a market order, with an order resting on the other side, at that order's price and for no more than it had |
| BookLimits.LeftoversFaceNothing | src/order_book.cpp:75-267 | what is left of an order and was not cancelled by a policy, whether it expires or rests, faces an empty side or one beyond its limit; a market order an empty one |
| BookLimits.RunTradesWithinLimit | src/order_book.cpp:209-371 | over any run each trade was asked for by a command, requeued replacements included, whose limit allows its price |
| BookLimits.RunLeavesNothingOpen | src/order_book.cpp:209-371 | at every command of any run, requeued replacements included, what is left faces nothing it could trade with |
| BookLimits.WhenOrdersAreAccepted | src/order_book.cpp:209-255 | an order is accepted if and only if symbol, quantity, price, id and room are right, a post-only order faces nothing and enough crosses a fill-or-kill order; a refusal changes nothing but the numbering |
| BookLimits.RefusalsAreTrue | src/order_book.cpp:12-25 | the reason of a refusal is true of the order |
| BookLimits.NewcomersStandLast | src/order_book.cpp:270-288 | time priority: an order that comes to rest stands behind everything at its price or better and before everything worse, and nobody else moves |
| BookLimits.WhenCancellationsWork | src/order_book.cpp:316-332 | a cancellation works if and only if the order rests and is the client's; then exactly that order is gone, reported with what it had left |
| BookLimits.WhenReplacementsKeepTheirPlace | src/order_book.cpp:334-371 | a replacement keeps its place exactly when the price stays and the quantity does not grow; otherwise it comes to stand last if it rests again |
| BookReports.ReportsTellTheBook | src/order_book.cpp:62-267 | over any run the reports and trades alone tell what every order has left in the book: filled means nothing, partially filled something, and each figure is the book's |
| BookHash.WhenWordsTellBooks | src/order_book.cpp:443-468 | two books from which the hash mixes the same words have the same orders in the same places if and only if they break into levels in the same places |
| BookHash.DifferentBooksHashAlike | src/order_book.cpp:450-463 | two concrete books with different orders and the same hash |
| BookSnapshot.RestoreOwnSnapshot | src/order_book.cpp:399-428 | resting orders and sequence, restored into a book in any state, give the very book back |
| BookSnapshot.RestoredBookBehavesTheSame | src/order_book.cpp:399-468 | a restored reachable book has the same hash and answers every later list of commands identically |
| QueueModel.QueuePositionModel.OnTrade | src/queue_model.cpp:6-14 | a print consumes what is ahead first, then fills the order |
| QueueModel.QueuePositionModel.OnCancelAhead | src/queue_model.cpp:15-18 | a cancel ahead shortens the queue in front by at most what is there |
| QueueModel.TradesAdd | src/queue_model.cpp:6-14 | a print of a+b moves the model as a print of a and one of b, event count aside; filled plus remaining is constant |
| QueueModel.WalkIsTracked | src/order_book.cpp:87-204 | through a whole walk the model is at the order's true place, or says it is filled, or the policy evicted it |
| QueueRuns.StepIsFollowed | src/order_book.cpp:87-364 | the same for any command on other orders, resting, cancelling and both kinds of replacing included |
| QueueRuns.QueueModelIsExact | src/queue_model.cpp:6-18 | started at the true place and fed what the book does, `ahead` and `own_remaining` are the book's at the end of every run the order survives; if it has left, the model says it is filled or a policy took it off |
| QueueRuns.AllOfTheRun | src/order_book.cpp:87-364 | an order that rests at the end of a run on other orders rested throughout |
| Venues.Exchange.Submit | src/exchange.cpp:54-150 | halted, outside its band, or passed to the symbol's own OrderBook, created on first use; the books stay sound and share no node pool |
| Venues.Exchange.BookOf | src/exchange.cpp:26-43 | finds a symbol's OrderBook or creates it under the venue's policy |
| Venues.Exchange.Cancel | src/exchange.cpp:214 | goes to the symbol's book past every gate |
| Venues.Exchange.Replace | src/exchange.cpp:215 | goes to the symbol's book past every gate |
| Venues.Exchange.SetStpPolicy | src/exchange.cpp:257-273 | every existing book and every later one has the policy |
| Venues.Exchange.Halt | src/exchange.cpp:151-169 | the venue, or one symbol, is halted and nothing else changes |
| Venues.Exchange.Resume | src/exchange.cpp:156-177 | the venue, or one symbol, trades again |
| Venues.Exchange.SetBand | src/exchange.cpp:185-204 | stores a positive band, throws otherwise |
| Venues.Exchange.ClearBand | src/exchange.cpp:206-212 | a symbol's band is removed |
| Venues.Exchange.StateHashOf | src/exchange.cpp:240-251 | the hash over symbols in increasing order |
| Venues.Exchange.WriteSnapshot | src/exchange.cpp:280-296 | one record per symbol in increasing order: sequence, resting orders, hash |
| Venues.Exchange.LoadSnapshot | src/exchange.cpp:298-335 | rebuilds the books record by record; the first bad record ends it with the books so far |
| VenueSpec.SymbolsAreIsolated | src/exchange.cpp:26-43 | what a symbol's book becomes and emits in any run is what it would alone, given its admitted commands and policy changes |
| VenueSpec.EachBookNumbersConsecutively | src/exchange.cpp:45-52 | however symbols interleave, each book's emissions are numbered without a gap |
| VenueSpec.WhenCommandsTrade | src/order_book.cpp:209-371 | a command trades on a book if and only if it is an admitted order, or a replacement that gives up its place, and then reaches liquidity its policy lets it have |
| VenueSpec.WhenVenuesTrade | src/exchange.cpp:54-215 | a command trades at the venue if and only if the gate lets it pass and it trades on its book |
| VenueSpec.WhenHaltedVenuesTrade | src/exchange.cpp:215 | at a halted venue exactly the replacements trade that give up their place and then reach liquidity |
| VenueSpec.HaltedVenueCanTrade | src/exchange.cpp:215 | a concrete halted venue at which a replacement trades |
| VenueGate.WhenSubmissionsPass | src/exchange.cpp:54-150 | a submission reaches its book if and only if neither venue nor symbol is halted and 100 times its price lies between 100 less and 100 plus the band's percentage of the reference, both included, or it is a market order; otherwise one rejection outside the numbering says which |
| VenueGate.OthersAlwaysPass | src/exchange.cpp:214-215 | cancellations and replacements reach their book whatever is halted |
| VenueGate.HaltsLast | src/exchange.cpp:151-177 | over any run that does not lift it by name, a halt of venue or symbol lasts and no submission reaches the symbol's book |
| VenueGate.StoppedSymbolsDoNotTrade | src/exchange.cpp:54-215 | while a symbol is stopped and none of its orders is replaced, its book does not trade |
| VenueGate.AdministrationTouchesNoOrder | src/exchange.cpp:151-273 | halts, bands and policies leave every queue and every numbering alone |
| VenueGate.AdministrationTakesEffect | src/exchange.cpp:151-212 | which symbols are stopped and which bands hold after each command |
| VenueGate.WhenRecordsAreRebuilt | src/exchange.cpp:298-335 | a record is rebuilt if and only if its orders fit, each can rest, and the hash of what they make is the recorded one |
| VenueGate.WhenSnapshotsLoad | src/exchange.cpp:298-335 | a snapshot loads if and only if each record is rebuilt |
| VenueGate.HashMayMistakeABook | src/exchange.cpp:329 | a concrete record with the hash of one book and the orders of another is rebuilt |
| Venues.OwnSnapshotLoads | src/exchange.cpp:280-335 | a snapshot loads if and only if every book fits the capacity, and then gives every book back under the loader's settings |
| Venues.RestoredVenueBehavesTheSame | src/exchange.cpp:280-335 | with equal settings every later run of the restored venue agrees with the original's |
| Venues.HashSurvivesSettings | src/exchange.cpp:240-251 | the restored hash is the written one |
| Level2.Level2Book.ApplyOne | src/market_data.cpp:218-362 | one increment: invalid, stale, buffered, gap, crossing or applied, with the source's answer |
| Level2.Level2Book.TakeSnapshot | src/market_data.cpp:112-215 | validates before changing anything, installs, replays the buffer in order, counts recoveries |
| Level2.Level2Book.ApplyAll | src/market_data.cpp:365-498 | a batch is applied whole or not at all |
| Level2.Level2Book.Clear | src/market_data.cpp:572-585 | back to the blank book |
| Depth.IsCrossed | src/market_data.cpp:333-337 | comparing best bid and best ask decides whether any bid reaches any ask |
| Level2Recovery.AlwaysSound | src/market_data.cpp:112-498 | whatever is delivered: synchronized means nothing buffered, nothing missing, not crossed; buffered sequences exceed the book's |
| Level2Recovery.SynchronizedMeansTheStream | src/market_data.cpp:112-362 | for one never-crossing stream in any order with losses, repeats, snapshots and resets: a synchronized book has the stream's levels at its sequence |
| Level2Recovery.RecoveryIsExact | src/market_data.cpp:157-215 | after a snapshot everything buffered up to the first hole is applied, the hole is named, exactly the rest stays, and the book is synchronized if and only if nothing does |
| Level2Recovery.AnswersTellIncrements | src/market_data.cpp:218-362 | an increment is answered as accepted exactly if the book has moved on to it, as a gap exactly if it came too early or during recovery, and then it is buffered unless the buffer is full |
| Level2Recovery.AnswersTellSnapshots | src/market_data.cpp:112-215 | a snapshot is accepted exactly if it is valid, names a gap exactly if the replay met one, and expects the number the book waits for |
| Level2Recovery.AnswersTellBatches | src/market_data.cpp:365-498 | a batch is accepted exactly if it is empty or the book has moved on to it; otherwise the levels stay |
| Level2Recovery.LatestIsTheGreatest | src/market_data.cpp:365-498 | an applied batch is dated by the latest of its updates |
| Binance.BinanceBookSynchronizer.ApplySnapshot | src/binance_l2.cpp:292-320 | a valid snapshot restarts the numbering at its id |
| Binance.BinanceBookSynchronizer.AppendUpdates | src/binance_l2.cpp:104-129 | one update per level, a delete for a quantity of zero |
| Binance.BinanceBookSynchronizer.ApplyUpdate | src/binance_l2.cpp:322-459 | status, last id, number and updates after any depth update |
| Binance.TakenCoversEveryId | src/binance_l2.cpp:361-459 | for any updates: what was taken covers every id up to the last without a hole, and as many numbers as updates were used |
| Binance.DiffCatchesUp | src/binance_l2.cpp:422-445 | an overlapping update takes the book at any id its range continues to the venue's book at its final id |
| Binance.UpdateMirrors | src/binance_l2.cpp:421-459 | the book downstream stays the venue's book exactly when what is taken says something |
| Binance.ReplicaMirrorsVenue | src/binance_feed.cpp:448-514 | for any overlaps, repeats, gaps, rejects and reconnects with non-empty diffs, the book equals the venue's at the last update id |
| Binance.WhatUpdatesDo | src/binance_l2.cpp:322-459 | a stale repeat or ignored message is accepted and changes nothing, a continuing update is taken to its last id, any other gives the connection up with the book as it was |
| Binance.WhatDiffsSay | src/binance_l2.cpp:104-129 | a taken update is published as one increment per level, bids first, under the next number, a delete exactly where the quantity is gone |
| Binance.WhenTheConnectionLasts | src/binance_feed.cpp:448-514 | a connection lasts through a run of updates if and only if their ids leave no gap, and then ends at the newest, repeats and overlaps included |
| Binance.FreshReplicaMirrors | src/binance_feed.cpp:493-506 | the same from a fresh synchronizer and a blank book on |
| Binance.EmptyDiffLosesTheVenue | src/binance_l2.cpp:422 | a literal venue and feed: an empty diff is taken, and the next one is refused by the book, which then is not the venue's |
| Binance.EmptyDiffDesynchronizes | src/binance_feed.cpp:504-508 | after an empty diff was taken, the next one is refused as a gap |
| Binance.InvalidUpdateSkipsTheSnapshot | src/binance_l2.cpp:322-459 | without a snapshot a fresh synchronizer takes nothing of a run of updates if and only if no invalid one in it is followed by a valid one that covers id 1 |
| Kraken.KrakenBookNormalizer.ApplyLevels | src/kraken_l2.cpp:594-627 | levels entered in order, removed at quantity zero |
| Kraken.KrakenBookNormalizer.TrimToDepth | src/kraken_l2.cpp:629-641 | dropping the worst level while there are too many leaves the levels with fewer than `depth` better ones |
| Kraken.TopKeepsTheBest | src/kraken_l2.cpp:629-641 | as many levels as fit stay, each better than every one dropped |
| Kraken.KrakenBookNormalizer.NormalizeSnapshot | src/kraken_l2.cpp:336-414 | trimmed book, checksum verdict, and a snapshot listing each level once, best first |
| Kraken.KrakenBookNormalizer.NormalizeUpdate | src/kraken_l2.cpp:416-592 | the new book and exactly the differences to the old one, deletes before upserts, bids before asks, better prices first, each price once; a mismatch leaves the new book unsynchronized and throws |
| KrakenVenue.EnteredAt | src/kraken_l2.cpp:594-627 | at each price a message names, the last level naming it decides: its quantity and texts, or nothing for a quantity of zero; elsewhere nothing changes |
| KrakenVenue.SideFollows | src/kraken_l2.cpp:594-641 | if one side of a message tells the venue's quantities, what is kept is the venue's best levels if and only if each of those was named or held |
| KrakenVenue.WhenTheNormalizerFollows | src/kraken_l2.cpp:336-592 | the same for both sides of a snapshot or an update that is taken |
| KrakenVenue.ForgottenLevel | src/kraken_l2.cpp:629-641 | a concrete update after which the normalizer lacks the venue's best level |
| KrakenVenue.TheChecksumDecides | src/kraken_l2.cpp:336-592 | a taken message leaves the normalizer synchronized if and only if it has no checksum or the new book's; any other message changes nothing |
| KrakenVenue.DownstreamIsTheVenuesBest | src/kraken_feed.cpp:258-345 | over any run of messages that tell the truth and name what is not held: whenever the normalizer is synchronized, the book downstream is exactly the venue's best levels |
| KrakenReplica.PatchUndoesDiff | src/kraken_l2.cpp:524-590 | patching the previously published top-N book with the differences gives exactly the new one |
| KrakenReplica.UpdateMirrors | src/kraken_l2.cpp:471-590 | the book downstream stays in step if and only if the differences are not empty and the new book is not crossed |
| KrakenReplica.ReplicaMirrorsNormalizer | src/kraken_feed.cpp:258-345 | over whole runs of such differences, mismatches and reconnects the book downstream equals the normalizer's |
| KrakenReplica.FreshReplicaMirrors | src/kraken_feed.cpp:258-345 | the same from a fresh normalizer and a blank book on |
| Oms.OrderManagementSystem.MakeParent | src/oms.cpp:56-104 | a new parent under the next id, or an exception that changes nothing |
| Oms.OrderManagementSystem.MakeChild | src/oms.cpp:106-195 | a child of at most the parent's remainder, or an exception that changes nothing |
| Oms.OrderManagementSystem.MarkChildWorking | src/oms.cpp:197-239 | a live child becomes working, or partially filled if it has fills |
| Oms.OrderManagementSystem.ChangeStatus | src/oms.cpp:341-421 | cancel and reject: a live child ends and its parent is refreshed; a dead one answers false |
| Oms.OrderManagementSystem.RecordChildFill | src/oms.cpp:241-339 | a fill within the child's remainder is added to child, parent and report list, or an exception changes nothing |
| Oms.OrderManagementSystem.CancelWholeParent | src/oms.cpp:423-476 | cancels every live child and the parent |
| Oms.OrderManagementSystem.RefreshParent | src/oms.cpp:648-733 | one pass over the children yields the parent's figures and derived status |
| Oms.OrderManagementSystem.RestoreFrom | src/oms.cpp:596-646 | replaces everything and starts the ids one beyond the largest restored |
| OmsLedger.RunKeepsBalance | src/oms.cpp:56-476 | every reachable ledger balances: a child's fills are its reports', filled + remaining = quantity, a parent's fills are its children's capped at its quantity, its status is derived, a cancelled parent has no live child, ids have no holes |
| OmsLedger.EndedForGood | src/oms.cpp:106-476 | no call changes a child that has ended or the status of a parent that has |
| OmsLedger.WhenParentsEnd | src/oms.cpp:715-729 | a parent has ended if and only if it is cancelled, filled, or has children none of which is live and nothing filled |
| OmsLedger.ParentFigures | src/oms.cpp:705-713 | a parent's filled quantity is the smaller of its quantity and the fills reported for it |
| OmsGuards.WhenParentsAreAccepted | src/oms.cpp:56-104 | a parent is accepted if and only if it has a symbol and a positive quantity, and starts new and empty under the next id |
| OmsGuards.WhenChildrenAreAccepted | src/oms.cpp:106-195 | a child is accepted if and only if its parent is open, venue, price and quantity are given, and its quantity is within what has not been filled; it is then the youngest child, and nothing else changes |
| OmsGuards.WhenChildrenChange | src/oms.cpp:197-421 | marking, cancelling and rejecting work exactly on an open child and change its status alone |
| OmsGuards.WhenFillsAreAccepted | src/oms.cpp:241-339 | a fill is accepted if and only if the child is open, price and quantity are positive, the fee is not negative and the child's fills stay within its quantity; the report carries the call's figures |
| OmsGuards.WhenParentsAreCancelled | src/oms.cpp:423-476 | cancelling works exactly on an open parent and cancels exactly its open children |
| OmsGuards.StatusIsTold | src/oms.cpp:648-733 | a parent's status told from its fills and its children: filled, partially filled, working, rejected, new or cancelled, each exactly when |
| OmsGuards.TradeLasts | src/oms.cpp:106-476 | a parent of which something is filled says so until it is cancelled by hand, and once filled it stays filled |
| OmsStorage.OmsStore.OnMutation | apps/api.cpp:401-485 | the callback saves parent, child and fill, and all children of an updated parent |
| OmsStorage.OmsStore.KeepParent | src/oms_store.cpp:330-460 | upsert by id that keeps the creation time |
| OmsStorage.OmsStore.KeepFill | src/oms_store.cpp:582-677 | a fill is inserted once |
| OmsStorage.OmsStore.Load | src/oms_store.cpp:705-1041 | rows by id, each child's id appended to its parent's row |
| OmsStorage.CallIsSaved | apps/api.cpp:401-485 | after every call the tables are the ledger's image again |
| OmsStorage.RestoreUndoesCrash | src/oms_store.cpp:705-1041 | loading the image and restoring gives the very ledger, child lists and next ids included |
| OmsStorage.CrashLosesNothing | src/oms.cpp:596-646 | a crash between any two calls of any run loses nothing |
| OmsTearing.WhenACrashTearsAFill | apps/api.cpp:401-485 | a process that dies after k of the three updates of a fill is restored to a ledger that balances if and only if k is 0 or 3, or 1 when the parent had nothing left; below 3 the fill is lost |
| PositionRecovery.RebuildPositions | apps/api.cpp:384-397 | positions are rebuilt from the restored fills and their parents |
| PositionRecovery.PositionsSurviveACrash | apps/api.cpp:384-447 | whatever is called and priced in a life, the positions rebuilt after it are those it had, marks aside |
| PositionRecovery.PositionsSurviveCrashes | apps/api.cpp:384-447 | the same over any number of lives |
| OmsOverfill.WhenCallsOverfill | src/oms.cpp:241-339 | a call overfills a parent if and only if it is an accepted fill beyond what its parent has left |
| OmsOverfill.WhenRunsOverfill | src/oms.cpp:106-339 | a run of any clients ends without an overfilled parent if and only if each fill it had accepted was within what its parent had left |
| OmsOverfill.UnpacedClientsOverfill | src/oms.cpp:143-148 | a concrete run: two children for the whole quantity, both filled |
| OmsPacing.PacedJobsNeverOverfill | src/algo_scheduler.cpp:257-673 | for every interleaving of jobs that fill only their newest child, no parent is overfilled |
| OmsPacing.LivesAreOneHistory | apps/api.cpp:325-485 | any number of lives, each restored from the tables the last one left, are one paced history of the ledger, and the tables hold what it led to |
| OmsPacing.LivesNeverOverfill | src/algo_scheduler.cpp:257-673 | for every interleaving of such jobs, with a crash anywhere and a restart from the tables any number of times, no parent is overfilled |
| OmsPacing.NeverOverfilled | src/algo_scheduler.cpp:257-673 | the same from empty tables |
| Algo.AlgoScheduler.Issue | src/algo_scheduler.cpp:491-565 | one call to the order management system, saved in the tables by the mutation callback, or a crash before it that changes nothing |
| Algo.AlgoScheduler.RunLeg | src/algo_scheduler.cpp:491-565 | create, then reject, or work, fill and cancel the rest: unless the process dies it is done exactly if the ledger can record it, and then it has added one child with the leg's figures and status, and its fill |
| Algo.AlgoScheduler.WorkLeg | src/algo_scheduler.cpp:526-565 | a leg that is not rejected: the child it leaves has the leg's figures and the status they imply, and one report carries its fill |
| Algo.FairWeatherTradesAll | src/algo_scheduler.cpp:281-597 | when every slice is quoted, routed and executed in full, what is traded is the smaller of what remained and what was planned |
| Algo.EachSliceDelivers | src/algo_scheduler.cpp:281-597 | while what remains covers what is planned, each routed slice trades all that its legs execute and any other nothing |
| Algo.AlgoScheduler.MeetSlice | src/algo_scheduler.cpp:287-597 | one slice: cancelled, skipped, past the end, or traded for exactly its share |
| Algo.AlgoScheduler.RunSlices | src/algo_scheduler.cpp:281-597 | the loop over the slices: what it traded, when it stops, and that sound routes with room never throw |
| Algo.WhenJobsGoOn | src/algo_scheduler.cpp:780-871 | a stored job goes on exactly if it was running and has its request; its figures are untouched |
| Algo.AlgoScheduler.CloseSlice | src/algo_scheduler.cpp:567-597 | the slice's fills are added to the job's account and the state is stored |
| Algo.AlgoScheduler.Wait | src/algo_scheduler.cpp:319-416 | a stored deadline is kept, a fresh one is stored |
| Algo.AlgoScheduler.RunJob | src/algo_scheduler.cpp:257-673 | with a crash at any point: only its own parent and newest child are touched, the account never exceeds the ledger, and a run not cut short leaves its parent ended and, unless a call threw, has filled exactly what its slices trade, its account saying so: when all are quoted, routed and executed in full, the smaller of what remained and what was planned, and it ends completed; with routes that execute at most what is asked, it never fills more than that; a parent it fills up is filled; with sound routes, room and an exact account it does not fail |
| Algo.AlgoScheduler.CancelNow | src/algo_scheduler.cpp:292-314 | a cancellation before a slice ends the parent and is not stored |
| Algo.AlgoScheduler.Fail | src/algo_scheduler.cpp:640-672 | the catch clause ends the parent, marks the job failed and stores it |
| Algo.AlgoScheduler.Finish | src/algo_scheduler.cpp:600-638 | completed if nothing remains, otherwise the parent is cancelled; either way it has ended |
| Algo.AlgoScheduler.NeverOverfills | src/algo_scheduler.cpp:257-673 | whatever the job did, no parent is overfilled, and the ledger it leaves is fit for the next life |
| Algo.AlgoScheduler.Resume | src/algo_scheduler.cpp:780-871 | a running job continues from its stored state with its recovery counted, or fails without its request; no child is remembered |
| Algo.SubmitJob | src/algo_scheduler.cpp:178-256 | a job is submitted: its parent is created and saved, its first state stored, and its lives may start from there |
| Algo.RunLife | apps/api.cpp:325-401 | one life: tables loaded, ledger restored, job recovered and run until done or dead; no parent is overfilled, no fill is lost, what is stored is fit for the next life, and a job that is over or lacks its request does nothing |
| Algo.RunLives | src/algo_scheduler.cpp:257-871 | the same over any number of lives, each dying after any number of effects |
| Positions.PositionManager.ApplyFill | src/position_manager.cpp:8-117 | the position after a fill, in every branch: cost, profit and the current mark |
| Positions.PositionManager.Mark | src/position_manager.cpp:119-138 | the unrealized figure at a mark |
| Positions.DealMovesCash | src/position_manager.cpp:30-105 | opening, adding, reducing, closing or flipping, a fill moves cash by exactly price times signed quantity and fee |
| Positions.WhenLongsAreSold | src/position_manager.cpp:61-99 | selling part of a long position realizes what is sold times price over average cost, which stays; closing leaves no cost, and going short the deal's price |
| Positions.WhenShortsAreCovered | src/position_manager.cpp:61-99 | the same for covering a short position, with the sign of the profit turned |
| Positions.WhenPositionsGrow | src/position_manager.cpp:30-60 | opening and adding realize only the fee, and the cost is what both parts cost together |
| Positions.RealizedAgainstCost | src/position_manager.cpp:8-117 | after any fills, realized minus average cost times net is minus what was paid |
| Positions.TotalAtMark | src/position_manager.cpp:119-138 | total profit at any mark is cash plus the marked position |
| Positions.DealsKeepMark | src/position_manager.cpp:101-117 | while a positive mark is set, fills alone keep the total current |
| Positions.OrderDoesNotMatter | src/position_manager.cpp:8-138 | the same fills in any order give the same position and total |
| Positions.RealizedAgrees | src/position_manager.cpp:8-117 | the same fills in two orders realize the same profit if and only if the account ends flat or the average costs agree |
| Positions.RealizedIsSafe | src/position_manager.cpp:8-117 | an account that ends flat, or is dealt in on one side only, realizes the same in any order |
| Positions.RealizedDependsOnOrder | src/position_manager.cpp:61-99 | concrete fills that realize 1 in one order and 2 in another |
| FixText.SplitFields | src/fix.cpp:17-46 | the fields between separators, empty ones dropped |
| FixText.SplitUndoesFielded | src/fix.cpp:17-46 | splitting undoes writing fields one after the other |
| FixText.DecimalRoundTrip | src/fix.cpp:48-60 | a written number is read back if and only if it fits an int |
| FixCodec.ComputeCheckSum | src/fix.cpp:272-285 | the sum of all bytes modulo 256 |
| FixCodec.Encode | src/fix.cpp:287-344 | the wire form with body length and checksum; throws exactly for an unknown type |
| FixCodec.ParseMessage | src/fix.cpp:346-534 | every check in order, then the fields, the last type field deciding |
| FixCodec.FieldRoundTrip | src/fix.cpp:62-88 | a field is read back whatever its value holds |
| FixCodec.ParseUndoesWire | src/fix.cpp:272-534 | an encoding parses if and only if its body length fits an int, and then to the message with its framing fields recomputed |
| FixCodec.OnlyIntactMessagesParse | src/fix.cpp:346-534 | whatever parses has the sum of its bytes up to the last "10=", modulo 256, as its declared checksum, and the distance from behind the second separator to there as its declared body length |
| FixCodec.WireOfCanonical | src/fix.cpp:287-344 | encoding again what was parsed gives the same bytes |
| FixFraming.Receiver.ExtractMessage | apps/fix_server.cpp:72-128 | cuts one message out of the buffer in place |
| FixFraming.Receiver.Read | apps/fix_server.cpp:260-270 | each read appends and drains all complete messages |
| FixFraming.WireIsFrame | apps/fix_server.cpp:92-115 | the first checksum mark in an encoding is its trailer's |
| FixFraming.StreamRoundTrip | apps/fix_server.cpp:72-128 | concatenated encodings in arbitrary chunks come out each, in order, nothing left over, and parse back |
| FixFraming.NoiseIsSkipped | apps/fix_server.cpp:72-128 | bytes before a message are skipped as long as no begin string starts among them |
| FixFraming.NoiseIsDropped | apps/fix_server.cpp:72-91 | without a begin string nothing comes out, and what is buffered is dropped beyond 8192 bytes |
| FixSessions.SetField | src/fix.cpp:119-142 | the first field with the tag is replaced, otherwise one is added |
| FixSessions.FixSession.ReceiveMessage | src/fix_session.cpp:135-281 | comp ids, sequence rule and dispatch, with state and answer; the FixAcceptance rows say what those are |
| FixAcceptance.OnlyTheNextIsCounted | src/fix_session.cpp:135-219 | a message from or to another, without a number, too low or too high changes nothing but the outgoing numbering: it is rejected with the reason, or answered by a request for exactly the numbers missed |
| FixAcceptance.WhenMessagesAreAccepted | src/fix_session.cpp:135-281 | a message is accepted if and only if it is from the counterparty, to this session, carries exactly the expected number, and is admissible for its kind and the state; what the session expects next |
| FixAcceptance.WhatAcceptanceDoes | src/fix_session.cpp:551-814 | the state, the answer and the resend range after each kind of accepted message |
| FixAcceptance.WhatRefusalDoes | src/fix_session.cpp:551-814 | a message in its turn that is not admissible is counted, leaves the state, and the reason is exact |
| FixAcceptance.AcceptedNumbersRise | src/fix_session.cpp:135-222 | whatever a session is sent, the numbers it accepts strictly rise |
| FixAcceptance.OnlyTheGatewayReplies | apps/fix_server.cpp:502-547 | the gateway's reply matters exactly for what reaches the gateway |
| FixAcceptance.OrdersReachTheGatewayOnce | apps/fix_server.cpp:189-547 | over any run of any bytes, with any reconnections and interruptions, the numbers of the orders that reach the gateway strictly rise: none reaches it twice |
| FixAcceptance.NothingCountedReturns | apps/fix_server.cpp:203-547 | a new connection hands the gateway nothing that was counted when the numbers were saved |
| FixAcceptance.WhenMessagesGoOut | src/fix_session.cpp:385-423 | a message goes out exactly on an active session, or to log on, log out or reject; stamped, and otherwise as it was |
| FixSessions.FixSession.CreateAdmin | src/fix_session.cpp:517-549 | stamped with the next outgoing number |
| FixSessions.FixSession.ProcessLogon | src/fix_session.cpp:551-604 | active and answered, or rejected by state or interval |
| FixSessions.FixSession.ProcessLogout | src/fix_session.cpp:606-637 | terminated, answered unless it was expected |
| FixSessions.FixSession.ProcessTestRequest | src/fix_session.cpp:663-697 | answered by a heartbeat with its id |
| FixSessions.FixSession.ProcessSequenceReset | src/fix_session.cpp:766-814 | moves the expected number forward only |
| FixSessions.FixSession.PrepareOutbound | src/fix_session.cpp:385-423 | stamped with the next number, or throws while inactive |
| FixSessions.FixSession.RestoreSequenceState | src/fix_session.cpp:470-494 | positive numbers are taken over, others throw |
| FixSessions.ReceiveNumbers | src/fix_session.cpp:496-549 | at most one message answers, administrative, with the next number, and only then is the number used up |
| FixSessions.WireDoesNotMatter | src/fix_session.cpp:135-281 | a message and the parse of its encoding are received alike |
| FixText.StoiAgrees | apps/fix_server.cpp:37-49 | where all of a text is a number in range, stoi reads the same one |
| FixCodec.ParsedIsClean | src/fix.cpp:346-534 | what is parsed from any bytes has no separator in its values |
| FixResend.ResendLoop | apps/fix_server.cpp:349-500 | the loop with its pending gap, over the stored rows |
| FixServing.FixServer.constructor | apps/fix_server.cpp:203-224 | a new connection restores its numbers from the store, or is given up if they are not positive |
| FixServing.FixServer.Send | apps/fix_server.cpp:155-187 | stored under its number and then written; either can fail and end the connection, the row staying stored |
| FixServing.FixServer.HandleMessage | apps/fix_server.cpp:290-547 | one parsed message: the session's answer, then a resend, or the gateway's reply, or nothing, with numbers saved; any store or write may fail, and every exception ends the connection where it happens |
| FixServing.FixServer.HandleWire | apps/fix_server.cpp:275-288 | a framed message that does not parse is skipped |
| FixServing.HandleKeepsOrder | apps/fix_server.cpp:290-547 | whatever comes in, the outbound log stays complete under consecutive numbers, exactly unless the connection is interrupted between storing a row and saving its number |
| FixServing.ApplicationsAreAnswered | apps/fix_server.cpp:502-547 | an accepted order or cancellation is answered by the gateway's reply, stored under the next number and written |
| FixServing.RunKeepsOrder | apps/fix_server.cpp:189-547 | over any run of messages, reconnections and interruptions: without one of those the log is message 1, 2, 3 and so on, each as it was sent, continued across connections; after one the numbering is lost for good |
| FixServing.WhenTheLogIsComplete | apps/fix_server.cpp:155-335 | after any run the log is complete if and only if no connection was interrupted between storing a row and saving its number |
| FixServing.InterruptionRepeatsANumber | apps/fix_server.cpp:160-335 | after any such interruption the next connection starts with the number of the last stored row |
| FixServing.InterruptedLogon | apps/fix_server.cpp:160-335 | a literal run: a logon answered, the write lost, a new connection, the logon answered again, both under number 1 |
| FixRecovery.GapFillFields | src/fix.cpp:563-628 | what a gap fill says |
| FixRecovery.PossDupFields | src/fix.cpp:537-561 | a copy is the original but for the duplicate mark, the original time and the time it is sent again |
| FixRecovery.GapFillReceived | src/fix.cpp:563-628 | a gap fill in turn takes a receiver to its new number |
| FixRecovery.CopyReceived | src/fix.cpp:537-561 | a possible duplicate in turn counts once |
| FixRecovery.ResendIsComplete | apps/fix_server.cpp:349-500 | for any request within what was sent, a receiver is taken from its begin to one beyond its end, every message in turn, each application message once and in order, no administrative one again |
| FixRecovery.RequestIsAnswered | apps/fix_server.cpp:337-500 | a resend request the session accepts is answered by that resend: whatever is written is in turn, the server stays connected exactly if the connection lives to write it all, and then the counterparty is taken to one beyond the range |
| FixRecovery.GapIsRecovered | src/fix_session.cpp:173-217 | a receiver that meets message n too early asks for exactly what it misses; the server accepts that off the wire, and what it writes, if the connection lives to write it all, brings the receiver each missed application message, once and in order, to where message n is in turn |
| FixRecovery.DeliveredOverTheWire | src/fix_session.cpp:135-281 | the same for what is parsed from the wire |
| FixRecovery.ResendThrowsWithoutCompIds | src/fix.cpp:563-585 | with an empty comp id a resend throws if and only if its range holds an administrative message |
| DropCopy.DropCopyStore.constructor | src/drop_copy.cpp:123-199 | opening reads the newest rows, indexes them by order, and marks orders when the cache is full |
| DropCopy.DropCopyStore.Publish | src/drop_copy.cpp:201-249 | appended to the table under the next id; cache and index stay the last rows and their index |
| DropCopy.DropCopyStore.EvictOldest | src/drop_copy.cpp:215-248 | the evicted event is at the front of its order's vector, and the order is marked |
| DropCopy.DropCopyStore.Recent | src/drop_copy.cpp:251-265 | the newest events first |
| DropCopy.DropCopyStore.EventsForOrder | src/drop_copy.cpp:267-330 | from the index if complete, otherwise from the table |
| DropCopy.DropIndexes | src/drop_copy.cpp:220-243 | the oldest cached event is the front of its order's vector, and dropping both keeps the index |
| DropCopy.OpenedOnFewAgrees | src/drop_copy.cpp:123-330 | opened on at most `capacity` rows, every answer is the chronological filter of the whole log after any number of events |
| DropCopy.AgreementIsExact | src/drop_copy.cpp:186-198 | opened on any table, the store agrees for ever if and only if every order with old rows is represented in the cache |

## Left out

- Widths: 32- and 64-bit wrap-around of ids, sequence numbers, quantities and price arithmetic. Numbers are
  unbounded; the FIX results say where a number must fit an int.
- Rounding and epsilons: quantities, prices and profits are exact reals, and "at most epsilon" is "at most zero".
- Threads, mutexes and clocks: calls are atomic and timestamps arbitrary.
- Sockets, TLS, HTTP, JSON, SQLite text and file formats: tables are maps or sequences keyed as the SQL says, a
  snapshot file is a list of records, and failures of the medium are not modelled.
- Venues.Exchange.Submit: handlers are taken to be installed; the venue's list of emissions stands for what they receive.
- OrderBook: `depth()` and the order in which equal keys of hash maps are visited.
- BookHash.WhenWordsTellBooks: collisions of the mixing itself, for books whose words differ.
- Kraken.KrakenBookNormalizer.NormalizeUpdate: the checksum is any function of the stored book.
- KrakenReplica.ReplicaMirrorsNormalizer: for runs whose differences are not empty and whose books are not crossed;
  KrakenReplica.UpdateMirrors says what happens otherwise.
- Binance.ReplicaMirrorsVenue: for runs whose accepted diffs are not empty; Binance.UpdateMirrors says what happens
  otherwise.
- ConsolidatedMarketData and its best bid and offer: a map of Level-2 books and a maximum over them.
- Schedules, quotes, router and execution simulator: a slice meets whatever executed route the caller supplies.
- Algo.AlgoScheduler.RunJob: one job; how many jobs interleave is the subject of OmsPacing.LivesNeverOverfill. A
  crash inside the mutation callback is the subject of OmsTearing.WhenACrashTearsAFill and is not combined with the
  scheduler's steps; the callback is taken to be installed before jobs are restored; the texts of errors are left out.
- QueueRuns.QueueModelIsExact: commands that name the followed order itself are excluded; they change the order the
  model was started for.
- FixRecovery.ResendIsComplete: stored messages are taken to have a body length that fits an int, so that they
  parse; the code skips a stored message that does not.
- FixServing.FixServer.HandleMessage: the stored copies of incoming messages, which nothing reads back; that storing
  one can end the connection is modelled.
- FIX heartbeats and test requests that are due by time, and the order gateway behind the session.
- The drop-copy table is the authority: that SQLite keeps it is not modelled.
- Risk limits, latency statistics, midpoint history, replay, the recorder's codec, wire structs, analytics and
  options.
