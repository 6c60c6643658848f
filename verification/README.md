# Verification of the trading engine's core

A Dafny model of the integer and exact state-machine logic of a paper-trading
engine for binary prediction markets: the paper matcher and its two A/B lanes,
the local order book and its resync protocol, the tape fill simulator, the
markout tracker, post-only pricing, and the self-contained pieces around them
(live-call budget, canonical JSON, calendar and timestamp parsing, decimal
conversion, the question document, the feed windows, the bucket schedule).

`dafny verify dfyconfig.toml` checks the whole project.

Where the program updates state in place, the model does so too: classes with
the program's fields (`PaperBook.Book`, `ExecutionActor.Actor`,
`OrderBook.Book`, `MarketActor.Actor`, `Markouts.Tracker`, `SharedFeeds.Feed`,
`CanonicalJson.Buffer`) and methods with the program's loops. Each method is
proved against a function on values; the theorems are lemmas about those
functions. Which theorem belongs to which part:

| part | modules | main results |
|---|---|---|
| matcher | PaperBook, PaperMatching, PaperPriority, PaperLedger | exact allotment of every update, exhaustion, priority by price, time and id, conservation over all runs |
| two lanes | ExecutionActor, LaneCalls, LaneIsolation | what each call does to both lanes; a cancelled order never fills again; non-interference of the lanes over every run, up to a strictly increasing renaming of order ids |
| book and resync | OrderBook, MarketActor, Resync, ResyncLimits | level vectors are the unique listing of a price map; a book that is not stale is the venue's book; exactly when a book is not stale; exactly which message formats make that trustworthy |
| pricing | PostOnly | when a quote is decided, and why not; it is the least grid price above the bid and is never filled by its own book |
| tape fills | Fills, FillsTerms, FillsCausality, FillsOrdering | which prints count and for how much; no look-ahead, exactly for which settings; monotonicity, profile order, mirror symmetry |
| markouts | Markouts, MarkoutTimes | the tracker refines "first observation at or after each horizon", at 1, 5, 10, 30 and 60 seconds |
| live-call budget | LiveCallBudget | all interleavings: reservations equal the counter, at most the budget, bounded runs |
| cache key | CanonicalJson, CacheKey | keys ascend by code point; canonical bytes are equal exactly for trees equal up to key order |
| timestamps | Calendar, Rfc3339, TimestampTerms | day numbers are Gregorian day counts; what the parser accepts, its value, and what each error means |
| decimals | Text, Decimals | exactly which texts are accepted; both converters are exact and agree |
| question document | QuestionsMd, QuestionsRoundTrip, QuestionsLineEndings, QuestionsErrors, QuestionsBuild | the parser's results are exactly the valid lists; printing and parsing round-trips, and exactly when under bare newlines; what each error means |
| feed windows | SharedFeeds, FeedTerms | what the aggregates mean; exactly what the pruned windows keep, and exactly when they give the full-history aggregates |
| bucket schedule | Interleave | every condition once, and every prefix is fair |

Prices and tick sizes are integers in millionths of a unit. Integers are
unbounded, with the program's saturation, overflow checks and ranges written out
where the code has them (`Domain`). `Arithmetic` holds the product laws the proofs
share.

Findings, where the code does not do what its documentation or the obvious
reading promises:

- The simulator's doc comment says no later print changes an earlier completion
  timestamp. Of the timestamp this holds for every setting: from the stamped print
  on, cutting the tape never changes it (`FillsCausality.StampNeverLooksAhead`).
  It does not hold of the quantity: for the CONSERVATIVE profile with a through
  multiple below 2, prints after the stamped one raise the filled quantity and
  fraction. `FillsCausality.LooksAheadBelowTwo` gives a tape, and
  `FillsCausality.NoLookAheadIff` shows exactly which settings are free of it.
- The timestamp parser is wider than RFC 3339 (`Rfc3339.LooseTextAccepted`):
  signs, short fields and an empty fraction are accepted. It is also narrower: a
  leap second is refused (`Rfc3339.StrictAcceptedIff`), and so are a lower-case
  `t` or `z` and a numeric offset, for every date and time
  (`Rfc3339.OtherSpellingsRefused`).
- A fresh book is trustworthy for every venue and delivery exactly when snapshots
  are numbered and deltas, if they are numbered too, carry their sizes
  (`ResyncLimits.FormatSoundIff`); unnumbered deltas after numbered snapshots only
  ever make the book stale. The live adapter numbers nothing. Its hashes cannot
  replace the numbers: they cover five levels a side, so no hash function protects
  deeper books, while a collision-free one does protect books of up to four levels
  if deltas carry it (`ResyncLimits.GuardedSound`, `ResyncLimits.ShallowToldApart`).
  `ResyncLimits.UnsequencedLossGoesUnseen` and `ResyncLimits.OmittedSizeSoundIff`
  say exactly when a lost delta, or one without its size, leaves a wrong book, and
  when the actor can tell.
- A document closed by bare newlines loses a carriage return at the end of a line:
  a valid list is read back exactly when none of its printed lines ends in one
  (`QuestionsLineEndings.BareNewlinesIff`); `QuestionsLineEndings.ReturnIsLost`
  gives a list that is not.
- Order flow on the pruned buffer can differ from the full history when a query is
  earlier than the last applied trade; `SharedFeeds.WindowedFlowIff` says when.

## Model

| member | source | states |
|---|---|---|
| PaperBook.Book.New | src/execution/paper.rs:158-166 | a ratio is accepted exactly when it is finite and between 0 and 1; the new book is then empty and keeps it, otherwise the ratio is reported invalid |
| PaperBook.Book.Place | src/execution/paper.rs:180-194 | accepted exactly for a buy of positive size and price whose id is free; then exactly this order is added, whole and untouched; otherwise nothing changes and the first failing check, of side, size, price and id, is reported |
| PaperBook.Book.Cancel | src/execution/paper.rs:197-199 | removes exactly the given order and reports whether it rested |
| PaperBook.Book.OrderedIds | src/execution/paper.rs:279-297 | the sort yields the one listing of the ids by price, then time, then id |
| PaperBook.QueueUnique | src/execution/paper.rs:279-297 | price, time and id determine the visiting order completely |
| PaperBook.Book.FillOrder | src/execution/paper.rs:299-338 | an order takes the smaller of what is offered and what it may take (one unit less on a first touch), fills at its own price, and leaves the book exactly when complete |
| PaperBook.Book.FillDown | src/execution/paper.rs:231-270 | handing a size down the queue gives every order its share of what the demand in front of it leaves, independently of the loop |
| PaperBook.Book.ApplyUpdate | src/execution/paper.rs:222-273 | the in-place update does trade-throughs first, then touches on what is left, and touches nothing else |
| PaperBook.Book.Replay | src/execution/paper.rs:214-219 | replaying updates is applying them in order, with the fills concatenated |
| PaperMatching.UpdateAllots | src/execution/paper.rs:222-273 | for every resting order, the exact size it fills in an update and the exact state it is left in |
| PaperMatching.UpdateExhausts | src/execution/paper.rs:222-273 | trade-throughs total exactly min(ask size, remaining size of orders above the ask), touches exactly min(floored capacity, demand at the bid), each in priority order |
| PaperMatching.PriorityBeforeFill | src/execution/paper.rs:222-244 | a crossed order fills only after every crossed order with priority over it is complete |
| PaperMatching.TouchLeavesOneUnit | src/execution/paper.rs:246-270 | when the touch queue passes an order over, that order is complete, or on its first touch has exactly one unit left |
| PaperMatching.FirstTouchNeverCompletes | src/execution/paper.rs:299-338 | an order's first touch never completes it and is counted once |
| PaperMatching.NoDoubleFill | src/execution/paper.rs:222-273 | no order fills twice in one update |
| PaperMatching.UpdateFillsAtLimit | src/execution/paper.rs:299-338 | every fill is of at least one unit, for a resting order, at its own limit, as maker, at the time of the update |
| PaperPriority.CrossedFillInOrder | src/execution/paper.rs:222-244 | above the ask, an order fills only once every order with a higher price, with the same price and an earlier placement, or with both the same and a smaller id has filled completely and left |
| PaperPriority.TouchesFillInOrder | src/execution/paper.rs:246-270 | at the bid, an order fills only once every older order, and at equal times every one with a smaller id, is complete or, on its first touch, down to one unit |
| PaperPriority.FillsListedInOrder | src/execution/paper.rs:222-297 | the fills of an update list first the orders above the ask, then those at the bid, each part by falling limit price, then rising time, then rising id |
| PaperPriority.AskSizeExhausted | src/execution/paper.rs:222-244 | orders above the ask get at most the ask size, and exactly that while one of them is incomplete |
| PaperPriority.CapacityExhausted | src/execution/paper.rs:246-277 | orders at the bid get at most the share of the arriving size rounded down, and exactly that while one of them could take more |
| PaperPriority.OrderAccounted | src/execution/paper.rs:222-338 | through an update an order keeps its terms, loses what it fills and leaves exactly when nothing remains; only orders above the ask or at the bid fill, and only the latter count touches |
| PaperLedger.Conservation | src/execution/paper.rs:180-338 | over every run and id: placed = filled + discarded by cancels + still resting |
| PaperLedger.PlacementAdds | src/execution/paper.rs:180-194 | an accepted placement adds its size to what was placed under its id, and nothing else |
| PaperLedger.CancelAdds | src/execution/paper.rs:197-199 | a cancel discards exactly what was left of its order |
| PaperLedger.UpdateAdds | src/execution/paper.rs:222-273 | an update adds exactly its fills |
| PaperLedger.ReplayJoin | src/execution/paper.rs:214-219 | replaying a tape is replaying its parts one after the other, with the fills in that order |
| PaperLedger.RunAccounted | src/execution/paper.rs:180-338 | every resting order is the last one placed under its id, and every fill is at the limit of the last order placed before it under its id |
| PaperLedger.OrderLife | src/execution/paper.rs:180-338 | every placement, up to the next one of its id or the end of the run: its size is the fills and discards in between plus what still rests, and all those fills are at its own price |
| ExecutionActor.Actor.constructor | src/engine/execution_actor.rs:53-60 | two empty books at the default ratio, ids from 1 |
| ExecutionActor.Actor.OnQuote | src/engine/execution_actor.rs:80-107 | a quote that passes the gate, validation and placement adds exactly one order, under the next id and with its terms, to its own lane and draws the id; any other changes nothing; no quote fills at once |
| ExecutionActor.Actor.OnBookUpdate | src/engine/execution_actor.rs:113-118 | both lanes match the same update, each on its own book and with a fifth of the arriving size for touches |
| ExecutionActor.Actor.Cancel | src/engine/execution_actor.rs:121-123 | the order is gone from its lane; its other orders, the other lane and the id sequence stay; the reply, and the outstanding count, say whether it was there |
| ExecutionActor.Actor.Outstanding | src/engine/execution_actor.rs:127-129 | the number of orders resting in the lane |
| LaneCalls.QuoteAnswer | src/strategy/risk.rs:102-121 | exactly when a quote is accepted, and exactly when each reason blocks it: kill switch, stale book, outstanding cap of its own lane, latency, order |
| LaneCalls.QuoteEffect | src/engine/execution_actor.rs:80-107 | an accepted quote adds one whole, untouched order to its own lane; a blocked one changes nothing |
| LaneCalls.CancelEffect | src/engine/execution_actor.rs:121-123 | a cancel removes its order from its lane and changes nothing else |
| LaneCalls.UpdateEffect | src/engine/execution_actor.rs:113-118 | an update matches each lane on its own and draws no id |
| LaneCalls.CancelledNeverFills | src/engine/execution_actor.rs:80-123 | over every run, once a cancel is accepted its order never rests in that lane again and no later update fills it there |
| LaneIsolation.LanesDoNotInterfere | src/engine/execution_actor.rs:41-131 | in every interleaved run, one variant's results, fills and resting orders are those of the run with the other variant's quotes and cancels deleted, up to a strictly increasing renaming of ids |
| LaneIsolation.UpdateRenamed | src/execution/paper.rs:222-297 | matching commutes with every strictly increasing renaming of order ids |
| LaneIsolation.LanesShareNoId | src/engine/execution_actor.rs:41-131 | over every run the two books share no id and every id came from the sequence |
| OrderBook.SetLevel | src/polymarket/book.rs:162-186 | editing and re-sorting the vector is one map update, for insert, replace, remove and a zero for an absent price |
| OrderBook.NormalizeLevels | src/polymarket/book.rs:149-160 | a snapshot's levels become the listing of the last-writer-wins map |
| OrderBook.SortLevels | src/polymarket/book.rs:181-185 | sorting levels of distinct prices yields the strictly sorted listing of the same map |
| OrderBook.ListingUnique | src/polymarket/book.rs:149-186 | equal price maps have equal level vectors |
| OrderBook.FirstIsBest | src/polymarket/book.rs:104-112 | the first level is the best price of its side, and there is none exactly when the side is empty |
| OrderBook.Book.ApplySnapshot | src/polymarket/book.rs:54-64 | replaces both sides and clears the stale flag |
| OrderBook.Book.ApplyDelta | src/polymarket/book.rs:71-77 | updates one price of one side and leaves the rest and the stale flag |
| OrderBook.Book.MarkStale | src/polymarket/book.rs:80-82 | changes the stale flag alone |
| OrderBook.Book.BestBid | src/polymarket/book.rs:104-106 | the maximum bid price, if any |
| OrderBook.Book.BestAsk | src/polymarket/book.rs:110-112 | the minimum ask price, if any |
| OrderBook.ReachableValid | src/polymarket/book.rs:54-82 | after any calls no zero quantity is listed |
| OrderBook.StaleIff | src/polymarket/book.rs:54-82 | over every run the book is stale exactly when it was marked so after its last snapshot |
| OrderBook.SnapshotThenDeltas | src/polymarket/book.rs:54-77 | a snapshot followed by deltas of a side is the snapshot with those levels appended |
| OrderBook.DeltasCommute | src/polymarket/book.rs:71-77 | deltas at distinct prices commute; at one price the last wins |
| MarketActor.TopIsFirstFive | src/polymarket/book.rs:141-147 | the hash covers the first five levels of a side, or all it has |
| MarketActor.Actor.constructor | src/engine/market_actor.rs:146-156 | starts with an empty stale book and no expected number |
| MarketActor.Actor.ApplyMessage | src/engine/market_actor.rs:188-201 | the in-place protocol step, for every message kind, token, number, size and hash |
| MarketActor.Actor.ApplySnapshot | src/engine/market_actor.rs:227-240 | a YES snapshot replaces the book and the expected number, and a wrong hash leaves it stale |
| MarketActor.Actor.ApplyDelta | src/engine/market_actor.rs:242-266 | gaps, repeats and wrong hashes make the book stale; the delta is applied all the same and sets the next expected number |
| MarketActor.Actor.LatestSnapshot | src/engine/market_actor.rs:220-225 | the published view is the current book with its stale flag |
| Resync.FreshBookIsVenueBook | src/engine/market_actor.rs:188-266 | under any loss, repetition or reordering of genuine messages, a book that is not stale is the venue's book at the number before the expected one |
| Resync.FreshIffChain | src/engine/market_actor.rs:188-266 | exactly when the book is not stale: the last YES snapshot arrived intact and every later YES delta arrived once, in order, with a right hash |
| Resync.StaleUntilSnapshot | src/engine/market_actor.rs:242-266 | once stale, stale until a YES snapshot |
| Resync.ForeignStutters | src/engine/market_actor.rs:188-201 | other tokens and lifecycle messages change nothing |
| Resync.GapIsApplied | src/engine/market_actor.rs:242-266 | a delta out of sequence makes the book stale, is applied nevertheless, and the next number is expected after its own |
| ResyncLimits.UnnumberedFreshIff | src/engine/market_actor.rs:227-266 | after an unnumbered snapshot and any unnumbered deltas, hashed or not, the book is the snapshot edited by what arrived, with no expected number, and it is stale exactly when a hash that arrived contradicts it; when deltas carry none, only the snapshot's own can |
| ResyncLimits.DeliveredIsSentIff | src/engine/market_actor.rs:227-266 | the book of such a stream is the venue's exactly when what arrived and what was sent agree on the last quantity at every price |
| ResyncLimits.UnsequencedLossGoesUnseen | src/engine/market_actor.rs:227-266 | a delta lost anywhere in such a stream goes unseen exactly when no hash that arrives contradicts the book, and leaves it right exactly when it changed nothing or a later delta rewrites its price |
| ResyncLimits.OmittedSizeSoundIff | src/engine/market_actor.rs:242-266 | a delta without its size, in a numbered stream that arrives complete, goes unseen exactly when no hash contradicts the book, and leaves it right exactly when it changed nothing or a later delta rewrites its price |
| ResyncLimits.FormatSoundIff | src/engine/market_actor.rs:188-266 | a fresh book is the venue's for all venues and all losses, repetitions and reorderings exactly when the feed numbers its snapshots, and its deltas have sizes if they have numbers, whatever hashes it carries |
| ResyncLimits.GuardedSound | src/engine/market_actor.rs:227-266 | message by message: telling hashes on all deltas, or numbers on all snapshots with a size or a telling hash on each numbered delta, make a fresh book the venue's |
| ResyncLimits.ShallowToldApart | src/polymarket/book.rs:141-147 | a collision-free hash of the top levels tells a book of at most four levels a side from every other |
| PostOnly.DivCeilLeast | src/engine/pipeline.rs:145-157 | rounding up gives the least multiple, less than one tick above |
| PostOnly.QuoteIff | src/engine/pipeline.rs:93-157 | exactly when a quote is decided, and that its price is the least tick multiple at or above bid + tick, valid, and below the ask |
| PostOnly.SkipIff | src/engine/pipeline.rs:93-136 | every reason to skip, with its exact condition and their precedence |
| PostOnly.UpdateSums | src/engine/pipeline.rs:871-898 | the update built from a book has the first prices and the summed sizes of its sides, and no arriving size |
| PostOnly.QuoteWithinTwoTicks | src/engine/pipeline.rs:93-157 | a decided quote is at least one and less than two ticks above the bid, and below the ask |
| PostOnly.DecidedQuoteNeverCrosses | src/engine/pipeline.rs:871-898 | placing a decided quote and applying the update built from the same book produces no fill for it and leaves it whole |
| Fills.CheckFill | src/replay/fills.rs:159-256 | both loops over the tape compute the outcome the evidence determines, for all three profiles |
| Fills.CollectEvidence | src/replay/fills.rs:175-204 | the accumulation loop keeps exactly the eligible directional prints and their totals |
| Fills.CompletionTimestamp | src/replay/fills.rs:322-343 | the completion loop stops at the first evidence that meets both thresholds |
| FillsTerms.EarlyPrintIgnored | src/replay/fills.rs:166-183 | deleting a print earlier than the rest time plus the submit latency never changes the outcome |
| FillsTerms.StampAfterLatency | src/replay/fills.rs:166-183 | no fill is stamped earlier than the rest time plus the submit latency |
| FillsTerms.PrintContributes | src/replay/fills.rs:275-299 | what a print contributes, by side, aggressor and price: all, half, a quarter or nothing of its size, and whether it traded through |
| FillsTerms.TotalsAdd | src/replay/fills.rs:175-204 | contributions and prints through the limit add up over the tape |
| FillsTerms.QuantityGiven | src/replay/fills.rs:206-256 | the filled quantity of every profile from those totals, the queue ahead and the through multiple |
| FillsTerms.OutcomeSays | src/replay/fills.rs:345-373 | filled exactly with a positive quantity and exactly with a timestamp; the fraction is its share of the size, the price is the limit |
| FillsTerms.DefaultSettings | src/replay/fills.rs:118-131 | queue ahead 0, 0.3 and 0.6 for the three profiles, and a through multiple of 2 |
| FillsCausality.NoLookAhead | src/replay/fills.rs:159-256 | every fill is stamped by an eligible print, and cutting the tape at n gives the identical outcome if and only if that print is included |
| FillsCausality.StampNeverLooksAhead | src/replay/fills.rs:150-256 | for every setting, a fill is stamped by an eligible print and every cut of the tape that keeps this print fills with the same timestamp |
| FillsCausality.LooksAheadBelowTwo | src/replay/fills.rs:211-256 | for every multiple below 2 and queue below 1 there is a tape on which a print after the stamped one raises CONSERVATIVE's quantity |
| FillsCausality.NoLookAheadIff | src/replay/fills.rs:159-373 | a simulator is free of look-ahead on all orders and tapes exactly when it is not CONSERVATIVE, or its multiple is at least 2, or its queue takes everything |
| FillsOrdering.ProfileOrder | src/replay/fills.rs:118-131 | fill fractions satisfy CONSERVATIVE <= BASE <= OPTIMISTIC on every order and tape |
| FillsOrdering.ProfilesCompleteInOrder | src/replay/fills.rs:211-255 | if CONSERVATIVE fills fully the others do, at prints no later in the tape, OPTIMISTIC no later than BASE |
| FillsOrdering.FullFillIsFinal | src/replay/fills.rs:211-255 | a full fill on a prefix of the tape stays full on every longer tape, decided within the prefix |
| FillsOrdering.MorePrints | src/replay/fills.rs:159-256 | appending prints never lowers the fill fraction |
| FillsOrdering.LowerLatency | src/replay/fills.rs:166-190 | lowering latency never lowers the fill fraction |
| FillsOrdering.ShorterQueue | src/replay/fills.rs:301-307 | lowering queue-ahead never lowers the fill fraction |
| FillsOrdering.BetterLimitFillsMore | src/replay/fills.rs:283-299 | a more aggressive limit never lowers the fill fraction |
| FillsOrdering.MirrorSymmetry | src/replay/fills.rs:275-299 | a buy at p and a sell at 1 - p on the mirrored tape get the same fraction, size and timestamp |
| Markouts.Tracker.AddQuote | src/engine/pipeline.rs:341-354 | the quote is appended with no horizon filled |
| Markouts.Tracker.Observe | src/engine/pipeline.rs:357-400 | an observation without a mid changes nothing; otherwise each pending quote is advanced once, and completed rows and the rest keep insertion order |
| Markouts.Tracker.FillHorizons | src/engine/pipeline.rs:365-372 | the horizon loop fills exactly the unfilled horizons that are due |
| Markouts.TrackerRefinesReference | src/engine/pipeline.rs:341-400 | over every sequence of calls, what is pending and what each observation completes is given by the first usable observation at or after each horizon |
| MarkoutTimes.RowsComplete | src/engine/pipeline.rs:341-400 | over every run, the rows of an observation are those of the quotes for which it is the first usable one at or after 60 seconds, each with the first mids at or after 1, 5, 10, 30 and 60 seconds and that completion time; every such quote gets its row |
| MarkoutTimes.FirstMidAt | src/engine/pipeline.rs:365-372 | the mid of a horizon is that of the first usable observation at or after it among the calls behind the quote |
| Markouts.PendingShape | src/engine/pipeline.rs:357-400 | a pending quote never has its last horizon filled, and its filled horizons form a prefix |
| Markouts.EachQuoteOnce | src/engine/pipeline.rs:341-400 | every added quote is pending or completed exactly once |
| LiveCallBudget.RunInvariant | src/bin/precompute_jev.rs:1701-1714 | in every interleaving, successful reservations equal the counter and never exceed the budget, and a worker fails at most budget times |
| LiveCallBudget.FinishedCount | src/bin/precompute_jev.rs:1701-1714 | when n workers have finished, exactly min(n, budget) succeeded |
| LiveCallBudget.RunsAreBounded | src/bin/precompute_jev.rs:1701-1714 | every run has at most n * (2 * budget + 1) atomic steps |
| LiveCallBudget.UnfinishedCanStep | src/bin/precompute_jev.rs:1701-1714 | no reachable state blocks an unfinished worker |
| LiveCallBudget.AnyValueMayBeRead | src/bin/precompute_jev.rs:1701-1714 | relaxed loads and failed exchanges may return every value since the one last read |
| LiveCallBudget.FailureMeansProgress | src/bin/precompute_jev.rs:1707-1711 | in every run a failed exchange means another worker reserved the very value that was loaded, after every state in which the counter was at most that value |
| CanonicalJson.WriteCanonical | src/bin/precompute_jev.rs:1779-1808 | the recursive writer appends exactly the canonical text and keeps what was in the buffer |
| CanonicalJson.WriteObject | src/bin/precompute_jev.rs:1781-1794 | sorting the keys and looking each up writes the canonical entries |
| CanonicalJson.WriteArray | src/bin/precompute_jev.rs:1795-1804 | items are written in order, separated and bracketed |
| CanonicalJson.EscapeForm | src/bin/precompute_jev.rs:1779-1808 | how each character of a string is written: itself, its short escape, or its number in hexadecimal |
| CanonicalJson.QuotedPrintable | src/bin/precompute_jev.rs:1779-1808 | a quoted text holds no control character |
| CanonicalJson.LessIff | src/bin/precompute_jev.rs:1783-1784 | the key order is dictionary order by code point |
| CanonicalJson.SortedLookup | src/bin/precompute_jev.rs:1783-1792 | walking sorted keys with lookups visits the sorted canonical entries |
| CacheKey.RoundTrip | src/bin/precompute_jev.rs:1779-1808 | a decoder reads every printed tree back and touches nothing after it |
| CacheKey.CanonIffEquivalent | src/bin/precompute_jev.rs:1781-1804 | canonical forms are equal exactly for trees equal up to key order at every depth |
| CacheKey.KeysAscend | src/bin/precompute_jev.rs:1783-1784 | in the canonical form the keys of every object strictly ascend by code point |
| CacheKey.SameBytesIffEquivalent | src/bin/precompute_jev.rs:1772-1808 | canonical bytes are equal if and only if the trees are equal up to key order |
| CacheKey.DecodeWrite | src/bin/precompute_jev.rs:1772-1777 | the bytes alone determine the canonical tree |
| Calendar.EpochIsZero | src/feeds/types.rs:129-141 | day 0 is 1970-01-01 |
| Calendar.NextDayIsOneMore | src/feeds/types.rs:129-141 | from every valid date to the next the number grows by one, across month ends, leap days, centuries and eras |
| Calendar.DayNumberIsDayCount | src/feeds/types.rs:129-141 | the number of a date is n exactly when counting n days from the epoch reaches it, forward or back |
| Calendar.LaterDateLarger | src/feeds/types.rs:129-141 | a later date has a larger number |
| Calendar.DaysInjective | src/feeds/types.rs:129-141 | equal numbers mean equal dates |
| Rfc3339.ParseIff | src/feeds/types.rs:49-118 | parsing succeeds with ms exactly when the text is written from accepted fields whose day count and time of day make ms |
| TimestampTerms.MillisMeans | src/feeds/types.rs:71-118 | which numeric fields are accepted, and the milliseconds they make |
| TimestampTerms.FractionTruncates | src/feeds/types.rs:97-110 | a fraction of any length counts in whole milliseconds, rounded down |
| TimestampTerms.NumericIff | src/feeds/types.rs:120-125 | a field is an optional plus sign and digits whose value fits 32 bits |
| TimestampTerms.FieldFaults | src/feeds/types.rs:56-118 | the exact condition of every error behind the separators, in the order they are looked for |
| TimestampTerms.ExampleParses | src/feeds/types.rs:147-153 | the documented example gives its documented value |
| Rfc3339.ParseMonotone | src/feeds/types.rs:49-118 | a later timestamp parses to a larger value |
| Rfc3339.StrictAcceptedIff | src/feeds/types.rs:49-118 | text of the RFC 3339 UTC shape is accepted exactly when its date and clock are valid |
| Rfc3339.LooseTextAccepted | src/feeds/types.rs:120-125 | a text outside the RFC 3339 grammar that is accepted |
| Rfc3339.SeparatorsRequired | src/feeds/types.rs:49-55 | exactly the texts without an upper-case T, and those with one that do not end in an upper-case Z, fail the first two checks |
| Rfc3339.OtherSpellingsRefused | src/feeds/types.rs:49-55 | a lower-case t or z and a numeric offset are refused for every date and time |
| Decimals.TextExact | src/polymarket/ws.rs:569-591 | on the printed form of every non-negative decimal the text converter is exact and fails exactly when the value is no integer or does not fit |
| Decimals.TextIff | src/polymarket/ws.rs:569-591 | exactly which texts the text converter accepts, and the value it gives them |
| Decimals.MantissaExact | src/polymarket/rest.rs:193-218 | the mantissa/scale converter is exact, with the same failures |
| Decimals.ConvertersAgree | src/polymarket/ws.rs:569-591 | the two converters agree on every non-negative decimal |
| QuestionsMd.ParseDocument | src/jev/questions_md.rs:79-206 | the line loop with its inner loops computes the parse, errors and line numbers included |
| QuestionsMd.CheckNames | src/jev/questions_md.rs:320-378 | the growing-set loops report the first unexpected or repeated name, else the first absent one |
| QuestionsErrors.SectionsRejected | src/jev/questions_md.rs:320-351 | exactly which section is reported: the first unknown id, the first repeated one, or else the first missing one |
| QuestionsErrors.CriteriaRejected | src/jev/questions_md.rs:353-378 | the same for the criteria of a choice |
| QuestionsErrors.SectionFaults | src/jev/questions_md.rs:273-318 | the exact condition of every error of a section, in the order they are looked for |
| QuestionsErrors.LineFaults | src/jev/questions_md.rs:109-200 | what each line of a section does or which error it gives: repeated or unknown lines, unsupported types, instructions without text |
| QuestionsErrors.CriterionLineIff | src/jev/questions_md.rs:173-191 | exactly which criterion lines are read, and as what |
| QuestionsErrors.SyntaxErrorsLocated | src/jev/questions_md.rs:79-206 | every syntax error of every document quotes the line whose number it gives |
| QuestionsRoundTrip.FinishIff | src/jev/questions_md.rs:273-318 | closing a section succeeds exactly when it holds all fields of a valid definition and nothing else, and gives that definition |
| QuestionsRoundTrip.ScanIff | src/jev/questions_md.rs:320-378 | the validators find no fault exactly when each allowed name occurs once and no other occurs |
| QuestionsRoundTrip.LengthCheckDead | src/jev/questions_md.rs:344-349 | the final length check never fails |
| QuestionsRoundTrip.AcceptedIsValid | src/jev/questions_md.rs:79-206 | every accepted document has each of the eight ids once and only valid definitions |
| QuestionsRoundTrip.RoundTrip | src/jev/questions_md.rs:79-206 | every valid list, with any introduction, order, instructions and criteria, is read back from its printed form |
| QuestionsRoundTrip.ParsedIffValid | src/jev/questions_md.rs:79-206 | the valid lists are exactly what some document parses to |
| QuestionsLineEndings.BareNewlinesIff | src/jev/questions_md.rs:82-84 | closed by bare newlines, a valid list is read back exactly when none of its printed lines ends in a carriage return |
| QuestionsLineEndings.ReturnIsLost | src/jev/questions_md.rs:82-84 | a valid list that is not read back under bare newlines |
| QuestionsBuild.BuildIff | src/jev/questions_md.rs:214-264 | an accepted document builds exactly when repricing is a choice; otherwise the first criterion is reported missing |
| QuestionsBuild.BuiltFromSections | src/jev/questions_md.rs:218-223 | each question carries the rendered instructions of the one section with its id |
| QuestionsBuild.BuiltByName | src/jev/questions_md.rs:243-263 | each of the eight questions comes from the section named after it |
| QuestionsBuild.CriteriaByName | src/jev/questions_md.rs:251-259 | each of the seven criteria comes from the one named after it |
| QuestionsBuild.BuiltCriteria | src/jev/questions_md.rs:231-241 | each repricing criterion carries the value the document gives it |
| QuestionsBuild.BuildIgnoresOrder | src/jev/questions_md.rs:214-264 | the order of sections does not matter |
| QuestionsBuild.OnlyFillQuestionsUsePrice | src/jev/questions_md.rs:266-271 | all but the two fill questions keep their wording for every price |
| QuestionsBuild.ReplaceFirst | src/jev/questions_md.rs:266-271 | the price stands where the first placeholder was, and substitution goes on behind it |
| QuestionsBuild.NoPlaceholderLeft | src/jev/questions_md.rs:266-271 | after substitution no placeholder remains |
| SharedFeeds.Feed.Apply | src/feeds/shared.rs:45-92 | the state stays the sorted, pruned image of everything applied, with the latest microprice of each venue |
| SharedFeeds.Feed.OrderFlowAt | src/feeds/shared.rs:108-147 | volumes are sums of trade sizes aged 0 to 1 second, the flow imbalances are buys less sells over 1 and 5 seconds, and the two ratios relate the one-second figures to their total, within their bounds |
| SharedFeeds.FlowMeans | src/feeds/shared.rs:108-147 | the same of any list of trades |
| FeedTerms.TickTime | src/feeds/shared.rs:47-52 | a tick is timed by the exchange if it says so, else locally, never before the epoch |
| FeedTerms.SpotKeptIff | src/feeds/shared.rs:55-66 | a spot tick is kept exactly while no later spot tick is more than 65 minutes newer |
| FeedTerms.TradeKeptIff | src/feeds/shared.rs:68-73 | a trade is kept exactly while no later trade is more than 5 seconds newer |
| FeedTerms.KeptValues | src/feeds/shared.rs:55-73 | a spot tick is kept as its price and time, a trade as its time, size and side |
| FeedTerms.MicropriceMeans | src/feeds/shared.rs:75-90 | halfway between two positive quotes, or else a positive price |
| SharedFeeds.KeptAreSurvivors | src/feeds/shared.rs:54-72 | both buffers hold exactly the entries not older than their retention before any entry applied after them |
| SharedFeeds.WindowedFlowIff | src/feeds/shared.rs:108-147 | at any query time, order flow on the pruned buffer equals order flow on the full history exactly when no trade of the one-second window was pruned and the five-second window lost as much buying as selling |
| SharedFeeds.WindowedFlowIsFullFlow | src/feeds/shared.rs:108-147 | in particular at any time not before the applied trades |
| Interleave.InterleaveBuckets | src/bin/historical_backtest.rs:371-385 | every condition of every bucket exactly once, round by round and in bucket order |
| Interleave.ScheduleUnique | src/bin/historical_backtest.rs:371-385 | that order is the only one |
| Interleave.ServedAreFirst | src/bin/historical_backtest.rs:371-385 | after any prefix a bucket has had exactly its first conditions, in its own order |
| Interleave.PrefixIsFair | src/bin/historical_backtest.rs:371-385 | wherever the run stops, no bucket is more than one turn ahead of one with conditions left, and none is ahead of an earlier one |

## Left out

- Floating point: fill sizes, prices and ratios of the simulator, the matcher's touch ratio and the feeds are reals, so rounding is not modelled; values that are not finite are absent values.
- Post-only tick sizes and candidate prices stay integers; the conversions from and to floating point around them are not modelled.
- The strategy rule behind a decision is a parameter of `PostOnly.Decide`; the Jev evaluation, `run_step`, portfolios, equity and settlement are left out.
- Order ids and venue sequence numbers are assumed below the saturation point in the theorems about runs; the functions themselves saturate.
- `u64` overflow of the level-quantity sums in a book update is not modelled.
- The change-detection hash is an uninterpreted function of the top five levels; SHA-256 over the cache key likewise stays outside.
- Library sorts are written as insertion sorts; where the program's sort is unstable the order of equal keys is left open (`SharedFeeds.SortTicks`) or impossible (`OrderBook.SortLevels`).
- Canonical text is a sequence of characters, and a number is its token; encoding to UTF-8 and number formatting are not modelled.
- The mantissa/scale converter is modelled on non-negative decimals; it rejects negative ones at once.
- `SharedFeeds` leaves out the perpetual basis, which the accumulator never sets.
- The market actor's channels, observers' timing and async loop are left out; a published view is taken after each message.
- Question texts take the candidate price as text; formatting a price is not modelled.
- Only the interleaving loop of the corpus run is modelled; bucketing, sorting within a bucket and the replay of a condition are not.
- Clients, reconnect and backoff loops, persistence and configuration are input and output; exits, fees, bootstrap statistics and the line parser of `src/market_spec.rs` are separate calculations that no modelled part uses.
