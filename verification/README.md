# Verified model of the exchange gateway

This project models the stateful core of a crypto exchange gateway written in Go, and proves what it does over
whole runs: the order book rebuilt from a snapshot and a stream of diffs, the rate limiters, the three records
kept of every trade, the asynchronous audit sink, the migration runner, credential rotation, reconnection and
event publishing.

Objects whose methods change their fields are classes here too. Each method is proved to carry out one step of
a pure transition function; the theorems are about runs of those transitions, over every sequence of calls.
Network answers, clock readings, jitter, identifiers and the decimal parser are inputs.

## The main results

- **Order book** (`OrderBook`, `Convergence`, `Shown`, `BookRuns`, `BookFeed`). The code never compares a
  snapshot's update id with the diffs it applies afterwards. It is right all the same after a gap, because
  diffs are absolute: a snapshot of moment `s`, of the whole side or of any part of it, overlaid with the diffs
  `f..l` is the venue's side at `l` on every price listed or touched, for every venue that spells its removals
  plainly, exactly when `f <= s + 1 <= l + 1` (`ConvergenceExact`); given that, plain spelling is exactly what
  is needed (`SpellingExact`). On the gap path the condition always comes to hold (`GapRecovery`); at startup
  nothing ensures it (`StartupExact`). `CaughtUpIsVenue` is the statement for runs with losses and repetitions.
- **What is shown** (`Shown`, `BookFeed`). A snapshot lists the best hundred levels. The first `n` levels shown
  are the venue's own, for every venue with that snapshot and those diffs, exactly when at least `n` of the
  known levels lie at or before the worst level the snapshot listed (`ShownExact`). `RecoveredUpdate` follows a
  gap through several interleaved pairs to the twenty levels offered to the consumer; where prices rank by value
  they are the venue's twenty highest bids and twenty lowest asks, best first (`RecoveredBest`).
- **Ranking** (`Levels`, `PriceOrder`). The in-place sort over an arbitrary map order gives the one ranking of
  the side. Prices are compared as strings; `NumericRankingExact` says for which sides that ranking is numeric,
  and `FixedShapeRanking` that it is for prices of one length with the point in one place.
- **Messages** (`BookRuns`, `BookFeed`). What each message does to the books and the queue: repetitions nothing
  (`RepetitionIsIgnored`), losses (`LossIsForgotten`), all others (`NextIsApplied`).
- **Rate limiters** (`CounterLimiters`, `WindowLimiters`). The exact set of admitted requests of all three
  limiters, from their history alone (`AdmissionExact`, `WeightedAdmissionExact`, `RpsAdmissionExact`), and the
  exact moment a refused request passes; the counter's leaky-bucket bound; and one window machine that both
  fixed-window limiters refine, with its bounds, each of them reached by the weighted limiter. Which venue
  reports keep every window to the budget, whatever follows, is settled exactly (`ReportExact`).
- **Ledgers** (`Store`, `OrderService`, `DummyLedger`). Over every run and any connector the store holds, for each
  client order id, the order of the first reply that carried it, and each replied trade once; it is the
  first-occurrence projection of the audit log; with the dummy connector it is the connector's own list exactly
  when trade ids are fresh.
- **Migrations** (`Migrations`, `MigrationRuns`). Over every history of runs cut short anywhere: what is recorded
  is an initial segment, and exactly which migrations a completed run leaves in or out of effect, and which it
  makes twice (`UpExact`, `DownExact`, `RepeatsExact`).
- **Rotation** (`Rotation`). Exactly which leases are revoked over every run (`RevokedExact`), when the one in use
  is not among them (`CurrentIsSafe`), and which of the others stay valid (`UnrevokedExact`).
- **Other protocols** (`AsyncSinks`, `Reconnect`, `Publishing`).

## Where the code does less than is said of it

- The documentation promises never to exceed venue limits. Over every interval shorter than a window this
  holds exactly for a budget that is not positive or a window of a single nanosecond (`WeightedOneExact`,
  `RpsOneExact`): otherwise a full budget passes at the end of one window and again at the start of the next.
- A venue report below what the limiter itself let through in the window reopens it: the budget is kept by
  every continuation exactly when the report is not that low (`ReportExact`).
- The documentation promises that gaps are detected and force a snapshot. The first diff after construction or
  after a gap is accepted whatever its number, so a loss at that point goes unnoticed (`StartupExact`). A gap
  whose snapshot request fails is followed by diffs on the old book: it is the venue's again exactly when, price
  by price, what was missed makes no difference any more (`FailedRefreshExact`).
- Only sizes "0" and "" remove a level; "0.00" stays as a level of size zero (`RemovalExact`), and the book
  differs from the venue's exactly when a price ends on such a zero (`SpellingExact`).
- A diff reaches levels the snapshot did not list only by touching them. When fewer than twenty known levels
  are left up to the worst one listed, deeper levels may be missing among those shown (`ShownExact`).
- "9" is shown above "10" as the best bid (`NineAboveTen`).
- A rotation whose probe fails keeps the new credentials, a load replaces credentials without revoking anything,
  and a rotation does not look at the vault's answer when it asks for a revocation. If the vault never goes back
  to a lease, exactly the leases replaced in one of these three ways, the last when the vault did not do as
  asked, are never revoked (`UnrevokedExact`), unless `RevokeOld` called them back while they were in use.
- `RevokeOld` asks to revoke the lease in use, not the old one, and without a probe (`CurrentIsSafe`).
- A migration reverted and not forgotten is still recorded: the next `Up` skips it and succeeds without it
  (`UpExact`; `RevertedIsSkipped` is an instance). One applied and not recorded survives the next `Down`
  (`DownExact`), and is applied a second time by the next `Up` (`RepeatsExact`). A runner without a way to ask
  applies and reverts everything each time.

## Model

| member | source | states |
|---|---|---|
| StringOrder.LessTrichotomy | internal/ws/ws.go:264-268 | the string comparison used on prices puts exactly one of any two different strings first |
| StringOrder.LessTransitive | internal/ws/ws.go:264-268 | and it is transitive |
| Levels.SortLevels | internal/ws/ws.go:261-276 | the nested swap loops leave the array sorted in the given direction, a permutation of what it was, equal prices included |
| Levels.Ranking | internal/ws/ws.go:249-259 | a side has a listing with every entry exactly once |
| Levels.RankingIsRanking | internal/ws/ws.go:249-259 | that listing is in strict price order |
| Levels.RankingUnique | internal/ws/ws.go:249-276 | it is the only one, so no iteration order of the map can change the result |
| Levels.SortedEntriesAreRanking | internal/ws/ws.go:249-259 | any sorted permutation of the entries of a map is its ranking |
| Levels.Entries | internal/ws/ws.go:250-253 | the entries are copied once each, in an arbitrary order |
| Levels.CollectLevels | internal/ws/ws.go:249-259 | whatever order the map is read in, the result is the first n of the ranking |
| Levels.TopLevelsAreBest | internal/ws/ws.go:255-258 | n or all levels are returned, in strict order, and every level left out comes after every level returned |
| PriceOrder.SameWidth | internal/ws/ws.go:264-268 | decimals with whole parts of one width, zeros at either end and any number of places allowed: string order is order by value, and by length for equal values |
| PriceOrder.FixedShape | internal/ws/ws.go:264-268 | for prices of one length with the point in one place it is the numeric order, and equal values are equal strings |
| PriceOrder.AgreementExact | internal/ws/ws.go:264-268 | for any two decimals without a zero in front, padded at the end or not, the string comparison is that by value exactly when neither whole part exceeds the leading digits of a wider one |
| PriceOrder.NumericRankingExact | internal/ws/ws.go:249-276 | a side is ranked by value, highest bid or lowest ask first, exactly when this holds of all its prices |
| PriceOrder.OneWidthSuffices | internal/ws/ws.go:249-276 | which it does if all whole parts have one width, with or without zeros in front |
| PriceOrder.FixedShapeRanking | internal/ws/ws.go:249-276 | for prices of one fixed shape each level returned is strictly better than all after it |
| PriceOrder.ShownBestByValue | internal/ws/ws.go:225-259 | the levels returned are then n or all of the side, in order of value, and none left out is better |
| PriceOrder.NineAboveTen | internal/ws/ws.go:264-268 | and does not for 9 and 10: the lower bid is shown as the best |
| PriceOrder.SpellsZeroExact | internal/ws/ws.go:207-215 | the spellings of zero are the decimals whose value is zero |
| OrderBook.OverlayLastWriter | internal/ws/ws.go:206-219 | the last entry of a diff for a price decides: new size or removal, whatever was there |
| OrderBook.OverlayUntouched | internal/ws/ws.go:206-219 | a price a diff does not mention keeps its size or its absence |
| OrderBook.OverlayApplies | internal/ws/ws.go:206-219 | price by price: size "0" or "" in the last entry removes, any other size is the new one, no entry leaves the price as it was |
| OrderBook.LoadLastWriter | internal/ws/ws.go:186-193 | a snapshot's side has exactly its listed prices, each with its last listed size, zeros kept |
| OrderBook.BookReconstructor.ApplySnapshot | internal/ws/ws.go:183-195 | both sides are replaced by the snapshot; the sequence number stays |
| OrderBook.BookReconstructor.ApplyDiff | internal/ws/ws.go:197-223 | accepted exactly if no number is stored or it is the next, a gap exactly if it leaves numbers out; an accepted diff is applied to both sides, any other changes nothing |
| OrderBook.BookReconstructor.MarkGap | internal/ws/ws.go:233-238 | the sequence number is forgotten and the sides stay |
| OrderBook.BookReconstructor.TopN | internal/ws/ws.go:225-231 | bids from the top down and asks from the bottom up, the first n of each ranking |
| OrderBook.RemovalExact | internal/ws/ws.go:207-215 | a side after a diff is what the venue means exactly when no price ends on a zero spelled differently from "0" and "" |
| OrderBook.PaddedZeroStays | internal/ws/ws.go:207-215 | a removal written "0.00" leaves a level behind |
| Convergence.ReplayEnding | internal/ws/ws.go:206-219 | after a run of diffs a touched price has the size it ends on, or is gone if that is "0" or "", from any starting side; an untouched one is as before |
| Convergence.EvolveEnding | internal/ws/ws.go:206-219 | the same for what the venue means, where any spelling of zero removes |
| Convergence.ConvergesAt | internal/adapters/binance/book.go:91-115 | price by price: right exactly when the price does not end on a zero the code takes for a size |
| Convergence.SpellingExact | internal/ws/ws.go:183-223 | a partial or whole snapshot with joining diffs gives the venue's side on all prices listed or touched, and nothing else, exactly when removals are spelled plainly |
| Convergence.WholeSnapshot | internal/ws/ws.go:183-223 | after a snapshot of the whole side that is the venue's whole side |
| Convergence.ConvergenceExact | internal/ws/ws.go:183-223 | it is right for every venue and every part listed exactly when f <= s + 1 <= l + 1 |
| Convergence.BaseExact | internal/ws/ws.go:183-223 | from any side whatever, diffs f..l end at the venue's side exactly when plainly spelled and every price they do not touch was right before f |
| Convergence.MissedExact | internal/ws/ws.go:197-223 | a side that missed some diffs is right again exactly when each price these touched is touched again or ends as it was |
| Convergence.ReplayMixesStates | internal/ws/ws.go:183-223 | before the replay passes the snapshot, the side can be one the venue never had |
| Shown.EnoughKnown | internal/ws/ws.go:225-231 | the first n of the known levels are the first n of all, if all up to some price are known and n known levels lie up to it |
| Shown.ShownExact | internal/adapters/binance/book.go:91-118 | after a snapshot cut at some level the n levels shown are the venue's, whatever else it holds, exactly when n known levels lie up to that level |
| Shown.BestLevelsCover | internal/adapters/binance/book.go:91-92 | a snapshot of the best levels of a larger side lists everything up to its last |
| Shown.AllLevelsLoad | internal/adapters/binance/book.go:91-92 | a snapshot of a side of no more levels than it lists is the whole side |
| Shown.BestByValueCover | internal/adapters/binance/book.go:91-92 | so does one of the best levels by value, if the venue's prices rank by value |
| BookRuns.StepExact | internal/adapters/binance/book.go:61-74 | which messages change a book, and how: repetitions, losses with and without a snapshot, and all others |
| BookRuns.BookIsOverlay | internal/adapters/binance/book.go:61-74 | without a successful refresh since a position, the book is the book of then overlaid with exactly the accepted diffs |
| BookRuns.EndsAsSent | internal/ws/ws.go:206-219 | over a run a price sent since is gone exactly when the size it was last sent with is "0" or "", on both sides |
| BookRuns.BookSinceSnapshot | internal/adapters/binance/book.go:61-74 | since the last successful refresh, it is that snapshot overlaid with exactly the diffs accepted since |
| BookRuns.AcceptedAreConsecutive | internal/ws/ws.go:200-205 | between two gaps the accepted sequence numbers are consecutive, except after an accepted 0, and end at the stored one |
| BookRuns.ObservedBook | internal/adapters/binance/book.go:61-74 | over every run with losses and repetitions the book is what an observer of update ids expects |
| BookRuns.CaughtUpIsVenue | internal/adapters/binance/book.go:61-74 | and once the replay joins on to its snapshot and has passed it, equals the venue's book on all listed or touched exactly when removals are spelled plainly |
| BookRuns.GapRecovery | internal/adapters/binance/book.go:61-74 | after a gap at g, a snapshot of some levels at s >= g and the messages in order up to l >= s, the book is the venue's at l on all listed or touched exactly when these messages spell removals plainly, from any earlier state |
| BookRuns.FailedRefreshExact | internal/adapters/binance/book.go:61-70 | after a gap whose refresh fails the old book goes on with the next message, and is the venue's at l exactly when what was missed makes no difference any more |
| BookRuns.StartupExact | internal/adapters/binance/book.go:76-86 | started from a snapshot of s, of any part, and fed f..l, the book is right for every venue exactly when f <= s + 1 <= l + 1 |
| BookFeed.StreamToPairCuts | internal/adapters/binance/book.go:143-148 | the pair is what precedes the first '@'; a name without one, or with it in front, is kept whole |
| BookFeed.StreamFindsItsPair | internal/adapters/binance/book.go:37-59 | the stream asked for on account of a pair finds that pair's own book |
| BookFeed.SubscribeBook | internal/adapters/binance/book.go:33-48 | refused exactly for an empty list of pairs |
| BookFeed.BookFeed.constructor | internal/adapters/binance/book.go:44-48 | one empty book of its own for every pair, pairs differing in case sharing one |
| BookFeed.BookFeed.Handle | internal/adapters/binance/book.go:51-74 | only the book of the message's pair moves, by one step; only an accepted diff offers an update, and a full channel loses it |
| BookFeed.RepetitionIsIgnored | internal/adapters/binance/book.go:61-72 | a number at most the stored one changes neither books nor queue |
| BookFeed.LossIsForgotten | internal/adapters/binance/book.go:61-69 | a number that leaves others out takes the stored one away, loads the snapshot if one arrives, and offers nothing |
| BookFeed.NextIsApplied | internal/adapters/binance/book.go:61-73 | any other is applied to both sides and offered, twenty levels a side, if both have levels and fewer than 64 updates are queued |
| BookFeed.BookFeed.EmitUpdate | internal/adapters/binance/book.go:117-141 | the update has the first twenty levels of both sides and is offered only if both have any |
| BookFeed.BookFeed.Bootstrap | internal/adapters/binance/book.go:76-86 | the books and offered updates after one snapshot request a pair, failed ones skipped |
| BookFeed.BootExact | internal/adapters/binance/book.go:76-86 | each book then has the last snapshot that arrived for it, and the number it had |
| BookFeed.BootOffers | internal/adapters/binance/book.go:76-86 | one offer a snapshot, of the book as just loaded |
| BookFeed.PairsAreIndependent | internal/adapters/binance/book.go:56-70 | over any interleaving the book of a pair is the run of its own messages |
| BookFeed.RecoveredUpdate | internal/adapters/binance/book.go:61-73 | after gap recovery amid other pairs' messages, from a snapshot whole or deep enough, the update offered shows the first twenty levels, in string order, of both sides of the venue's own book |
| BookFeed.RecoveredBest | internal/adapters/binance/book.go:61-73 | and where prices rank by value, the venue's twenty highest bids and lowest asks, best first, or nothing if it has no bids or no asks |
| CounterLimiters.CounterLimiter.Decay | internal/ratelimit/ratelimit.go:144-155 | decay by whole elapsed intervals, floored at zero; nothing if the clock went back |
| CounterLimiters.CounterLimiter.Wait | internal/ratelimit/ratelimit.go:125-142 | admitted if no backoff holds and the decayed counter has room; the decay is kept in every case |
| CounterLimiters.CounterLimiter.Backoff | internal/ratelimit/ratelimit.go:157-162 | only the backoff changes |
| CounterLimiters.DecayInTwoSteps | internal/ratelimit/ratelimit.go:144-155 | decaying at an intermediate time makes no difference |
| CounterLimiters.DecayIsEager | internal/ratelimit/ratelimit.go:144-155 | lazy decay equals taking one off at every grid point, floored at zero each time |
| CounterLimiters.CounterIsPeak | internal/ratelimit/ratelimit.go:125-155 | over every run the counter is the largest, over earlier admissions, of cost since less ticks since; it stays on the grid of construction |
| CounterLimiters.AdmissionExact | internal/ratelimit/ratelimit.go:125-162 | a request passes if and only if it is read no earlier than the last pause ends and fits alone and together with the cost admitted since each earlier admission, less the ticks |
| CounterLimiters.PauseHolds | internal/ratelimit/ratelimit.go:129-162 | after a backoff of d at t, until the next, every request read before t + d is refused |
| CounterLimiters.LeakyBucketBound | internal/ratelimit/ratelimit.go:125-155 | at most the budget plus the whole intervals from construction, and one more in any interval |
| CounterLimiters.LeakyBucketBoundIsTight | internal/ratelimit/ratelimit.go:125-155 | the extra unit is reached |
| CounterLimiters.EarliestRetry | internal/ratelimit/ratelimit.go:125-162 | a refused request passes exactly from the (v + cost - budget)-th following tick on |
| WindowLimiters.WeightedLimiter.Wait | internal/ratelimit/ratelimit.go:33-50 | the window is renewed if due, then the weight is charged if no backoff holds and it fits |
| WindowLimiters.WeightedLimiter.Replenish | internal/ratelimit/ratelimit.go:98-104 | a window as old as the refill time is replaced by one starting now |
| WindowLimiters.WeightedLimiter.UpdateUsed | internal/ratelimit/ratelimit.go:52-62 | the count becomes what the venue reports |
| WindowLimiters.RPSLimiter.Wait | internal/ratelimit/ratelimit.go:198-218 | during a backoff nothing changes; otherwise renew if due and count one if below the limit |
| WindowLimiters.WeightedAdmissionExact | internal/ratelimit/ratelimit.go:33-104 | after any calls a request passes if and only if it is read no earlier than the last pause ends and its weight fits the budget with what passed since the window began or, with the last report, since it; or alone in a window that is due |
| WindowLimiters.WeightedRetry | internal/ratelimit/ratelimit.go:33-50 | a refused weight passes exactly from the end of its window on, if it fits the budget at all and nothing else passes before |
| WindowLimiters.PauseHolds | internal/ratelimit/ratelimit.go:36-70 | after a backoff of d at t, until the next, every request read before t + d is refused |
| WindowLimiters.RpsAdmissionExact | internal/ratelimit/ratelimit.go:198-230 | after any calls a request passes if and only if no pause holds and fewer than the limit passed since the window began, or it is due |
| WindowLimiters.RpsPauseHolds | internal/ratelimit/ratelimit.go:198-230 | after a backoff of d at t, until the next, every request before t + d is refused |
| WindowLimiters.WeightedIsMetered | internal/ratelimit/ratelimit.go:33-62 | the weighted limiter refines the window machine, where each window charges at most the limit |
| WindowLimiters.RpsIsMetered | internal/ratelimit/ratelimit.go:198-218 | so does the requests-per-second limiter |
| WindowLimiters.MeterBound | internal/ratelimit/ratelimit.go:98-104 | an interval charges at most the limit for each window it can meet |
| WindowLimiters.WeightedBound | internal/ratelimit/ratelimit.go:33-62 | at most 2 budgets in less than a window, (whole windows + 2) budgets in any interval, (whole windows + 1) from construction, with any reports that are not below the window's own charges |
| WindowLimiters.ReportExact | internal/ratelimit/ratelimit.go:52-62 | after any run a report keeps every window to the budget in every continuation exactly when it leaves no more room than the window has |
| WindowLimiters.RpsBound | internal/ratelimit/ratelimit.go:198-218 | the same bounds with limit and window |
| WindowLimiters.WeightedOneExact | internal/ratelimit/ratelimit.go:33-50 | every run keeps every interval shorter than a window to one budget exactly if the budget is not positive or the window at most one tick |
| WindowLimiters.RpsOneExact | internal/ratelimit/ratelimit.go:198-218 | the same for requests per second |
| WindowLimiters.FirstBoundIsReached | internal/ratelimit/ratelimit.go:33-50 | the bound from construction is reached, for any number of windows |
| WindowLimiters.IntervalBoundIsReached | internal/ratelimit/ratelimit.go:33-50 | and so is the bound for intervals, of any length from one tick over whole windows |
| Store.MemStore.RecordOrder | internal/store/store.go:56-68 | an order is kept if its client id is new, and the first one stays |
| Store.MemStore.RecordFill | internal/store/store.go:81-94 | a fill is appended if no stored fill has its venue and trade id |
| Store.MemStore.FillsForOrder | internal/store/store.go:96-106 | the stored fills of one order id |
| Store.AddFillFirst | internal/store/store.go:81-94 | recording keeps the store the list of first occurrences of all fills offered |
| Store.FirstOccurrencesAll | internal/store/store.go:84-88 | nothing offered is left out exactly when no trade comes twice |
| Store.TradesAreUnique | internal/store/store.go:81-94 | over every run no trade is stored twice |
| Store.ReplayChangesNothing | internal/store/store.go:56-94 | calls whose keys were applied before change nothing, in any order and number |
| Store.ReplayReturnsFalse | internal/store/store.go:56-94 | and each reports that it recorded nothing |
| Store.FillsArePartitioned | internal/store/store.go:96-106 | every fill is found under its own order id, with its multiplicity, and under no other |
| Store.FillsKeepOrder | internal/store/store.go:96-106 | in the order of recording |
| Audit.InMemorySink.Emit | internal/audit/audit.go:65-72 | the event is appended, stamped if it had no time |
| DummyVenue.DummyVenueConnector.PlaceOrder | internal/venue/dummy.go:36-69 | one full fill at the asked price, or the connector's own, is answered and kept |
| DummyVenue.DummyVenueConnector.CancelOrder | internal/venue/dummy.go:71-82 | a known order's status becomes canceled; an unknown one is ignored |
| DummyVenue.DummyVenueConnector.GetFills | internal/venue/dummy.go:94-114 | the fills matching order id and closed time range, in order, cut at a positive limit |
| DummyVenue.Respond | internal/venue/dummy.go:46-62 | one fill of the whole quantity at the asked price, or the connector's own for a zero; the order's totals are its fill's, and the fee is a thousandth of the value |
| DummyVenue.SelectedExactly | internal/venue/dummy.go:98-109 | before the limit, a query finds every matching fill as often as it was made and no other |
| DummyVenue.SelectedConcat | internal/venue/dummy.go:98-109 | and in the order in which they were made |
| Publishing.TrimCuts | internal/events/events.go:99-100 | no blank is left at either end and only blanks at the ends are removed |
| Publishing.CleanConcat | internal/events/events.go:96-103 | each broker contributes its trimmed text, or nothing if that is empty, in order |
| OrderService.CheckExact | internal/server/server.go:146-186 | passed on exactly: a POST that decodes, with five fields, a positive amount and a price that is empty or parses; 405 for another method, 400 for the rest; quantity, price, pair, side and type are those of the body |
| OrderService.Service.PlaceOrder | internal/server/server.go:146-260 | succeeds exactly for such a request that the connector answers, 502 if it does not; a refusal leaves store and log alone; a success writes order and fills, then order and fill events |
| OrderService.StoredOrderIsFirstReply | internal/server/server.go:173-201 | over every run the stored order of a client id is what was asked for, with status, filled quantity and average price of the first reply that carried the id |
| OrderService.StoredFillsAreReplied | internal/server/server.go:202-215 | over every run the stored fills are the connector's replied fills, each trade once, in order |
| OrderService.AuditedAreReplied | internal/server/server.go:216-248 | and the audited fills are all of them |
| OrderService.StoredFillsAreAudited | internal/server/server.go:187-248 | over every run with all other events of the log between, and any connector, stored fills are the first occurrences of the audited fills, in order |
| OrderService.StoredOrdersAreAudited | internal/server/server.go:187-227 | over every run, stored orders are the first audited placement of each client order id |
| DummyLedger.VisitFills | internal/venue/dummy.go:36-69 | a request passed on adds one fill of the parsed amount at the parsed price, or the connector's own for none or 0; a refused one adds nothing |
| DummyLedger.StoreIsConnector | internal/venue/dummy.go:36-69 | stored fills are the connector's fills exactly when trade ids never repeat; both know the same client ids |
| AsyncSinks.AsyncSink.Emit | internal/audit/async.go:53-65 | an event goes to a waiting receiver, to the queue if there is room, or is counted as dropped |
| AsyncSinks.AsyncSink.Advance | internal/audit/async.go:67-74 | one step of the goroutine; the delegate gets exactly the event in flight |
| AsyncSinks.AsyncSink.Close | internal/audit/async.go:82-91 | closes once; a second call changes nothing |
| AsyncSinks.StepConserves | internal/audit/async.go:53-74 | each step keeps delivered, in flight and queued events together in order, and drops only at a full queue |
| AsyncSinks.EventsAreConserved | internal/audit/async.go:53-91 | over every interleaving these are the accepted events in order, and every emission was accepted or counted |
| AsyncSinks.CloseThenDrain | internal/audit/async.go:67-91 | after closing, the goroutine ends within its remaining steps with everything accepted delivered |
| AsyncSinks.OpenDrains | internal/audit/async.go:67-74 | without closing too, its remaining steps deliver everything accepted |
| Migrations.Runner.Up | internal/store/migrations/migrations.go:86-115 | under any faults, with or without effect, the statements made are a prefix of the faultless script; it succeeds, with all of it, exactly if the migrations can be listed and no call fails |
| Migrations.Runner.Down | internal/store/migrations/migrations.go:117-141 | the same for reverting |
| MigrationRuns.EveryHistoryIsGood | internal/store/migrations/migrations.go:86-141 | over any cut-short runs, at every statement the recorded versions are an initial segment; a runner that asks applies nothing recorded again and reverts nothing unrecorded |
| MigrationRuns.GoodThroughout | internal/store/migrations/migrations.go:86-141 | what that means for each moment of the log |
| MigrationRuns.UpCompletes | internal/store/migrations/migrations.go:86-115 | a completed Up leaves all versions recorded whatever went before |
| MigrationRuns.UpExact | internal/store/migrations/migrations.go:97-112 | and in effect, exactly but for those whose last statement, for a runner that asks, reverted them without forgetting them |
| MigrationRuns.DownUndoesUp | internal/store/migrations/migrations.go:117-141 | a completed Down after it reverts all in exactly reverse order and leaves nothing recorded |
| MigrationRuns.UpApplies | internal/store/migrations/migrations.go:97-109 | Up applies a version exactly if it is unrecorded or the runner cannot ask |
| MigrationRuns.DownReverts | internal/store/migrations/migrations.go:122-135 | Down reverts a version exactly if it is recorded or the runner cannot ask |
| MigrationRuns.DownExact | internal/store/migrations/migrations.go:122-138 | a completed Down leaves out of effect all but those last applied without being recorded, by a runner that asks |
| MigrationRuns.RepeatsExact | internal/store/migrations/migrations.go:97-138 | a migration in effect is applied again, and one not in effect reverted again, exactly when the runner cannot ask or that was the last statement about it |
| MigrationRuns.NothingInEffect | internal/store/migrations/migrations.go:86-141 | a completed Up and a completed Down leave nothing in effect, whatever went before |
| MigrationRuns.RevertedIsSkipped | internal/store/migrations/migrations.go:97-105 | one version, a completed Up and a Down cut before its DELETE: the next Up does nothing and succeeds |
| Rotation.Manager.LoadCredentials | internal/secrets/secrets.go:45-67 | both reads must succeed; the key's version and lease are kept |
| Rotation.CurrentIsLastRead | internal/secrets/secrets.go:45-67 | over every run the credentials in use have the key, version and lease of the last key read and the secret of the last secret read |
| Rotation.Manager.RotateCredentials | internal/secrets/secrets.go:75-90 | load, probe, then ask to revoke the old lease if it differs, whatever the vault does; a failed probe keeps the new credentials and asks nothing |
| Rotation.Manager.RevokeOld | internal/secrets/secrets.go:92-99 | asks to revoke the lease in use, if it has a name, and passes the vault's answer on |
| Rotation.CurrentIsSafe | internal/secrets/secrets.go:45-99 | if the vault never goes back to a lease it replaced, the lease in use is revoked if and only if RevokeOld got it revoked |
| Rotation.ReturningIsUnsafe | internal/secrets/secrets.go:75-90 | wherever it does go back, plain rotations end up using a revoked lease |
| Rotation.ProbeBeforeRevoke | internal/secrets/secrets.go:81-88 | with probes and without RevokeOld, each revocation asked for directly follows a successful probe of another lease |
| Rotation.RevokedExact | internal/secrets/secrets.go:45-99 | over every run a lease is revoked exactly if it has a name and the vault carried out its revocation when a rotation without a failed probe replaced it or RevokeOld called it back in use |
| Rotation.UnrevokedExact | internal/secrets/secrets.go:45-99 | if the vault never goes back to a lease, one given out and no longer in use was never revoked exactly if a load, a rotation with a failed probe or one whose revocation was not carried out replaced it, and RevokeOld had not called it back |
| Reconnect.Run | internal/ws/ws.go:77-120 | the delay slept in each round: twice the one before, or 200 ms at the start and after a connection, and the jitter, cut at the maximum |
| Reconnect.DelayEnvelope | internal/ws/ws.go:152-160 | the k-th delay since a connection lies between 2^k and 3^k times 100 ms, both cut at the maximum, for every jitter |
| Reconnect.EnvelopeIsReached | internal/ws/ws.go:152-160 | both ends of the envelope are reached for every k |
| Reconnect.CapReached | internal/ws/ws.go:152-160 | the delay is the maximum, at the latest, from the round where 2^k times 100 ms reaches it |
| Reconnect.DelaysGrow | internal/ws/ws.go:77-120 | delays do not shrink between connections |
| Reconnect.TotalEnvelope | internal/ws/ws.go:77-120 | k attempts since a connection take a time between the sums of 2^i and of 3^i times 100 ms, each cut at the maximum |
| Reconnect.AttemptsInTime | internal/ws/ws.go:77-160 | as long as doubling has not reached the maximum, within (2^(k+1) - 2) times 100 ms there are fewer than k attempts since a connection: they grow with the logarithm of the time |
| Reconnect.AttemptsAtCap | internal/ws/ws.go:77-160 | and from there on each further attempt takes the maximum more |
| Reconnect.AttemptsAreSpaced | internal/ws/ws.go:77-120 | n rounds, with connections in between or not, sleep at least n times the smaller of the maximum and 200 ms |
| Publishing.Attempt | internal/events/events.go:161-179 | published after failures only, cancelled, or all attempts failed, with the total wait bounded by 100 ms (m+1)(m+2)/2 |
| Publishing.OutcomeUnique | internal/events/events.go:161-184 | for every behaviour of publisher and context no two outcomes fit |
| Publishing.PublishFill | internal/events/events.go:147-185 | rejected exactly without an order id, given up exactly if it does not encode then; one dead letter exactly when all attempts failed |
| Publishing.PublishBalance | internal/events/events.go:187-219 | rejected exactly without venue or asset, given up exactly if it does not encode then; the same outcomes, no dead letter |
| Publishing.CleanInPlace | internal/events/events.go:96-103 | filtering into the same array gives the trimmed nonblank brokers in order |

## Left out

- Integer width: sequence numbers, counts, costs and times are unbounded. `ApplyDiff` tests for stale numbers first, so `lastSeq + 1` is never relied on when it would wrap.
- Float headroom metrics, Prometheus, tracing, logging and HTTP encoding.
- JSON decoding and decimal parsing: messages arrive decoded; updates keep prices and sizes as strings.
- `lastUpdate` and `Lag`: they feed a metric only.
- Mutexes: each method is one atomic step, and rotations are serial.
- The consumer of the update channel: the channel is a queue that nothing empties.
- BookFeed.BookFeed.EmitUpdate: leaves out the decimal parse of prices and sizes and the time stamp.
- Shown.ShownExact: assumes prices without the zero character, so that a venue has room for a level after the last one listed.
- CounterLimiters.AdmissionExact: requires nonnegative costs and a clock that does not go back, as do the bounds; `Wait` itself is modelled for all inputs.
- WindowLimiters.WeightedBound: assumes no `SetBudget` during the run; what a lower report does is `ReportExact`.
- AsyncSinks.AsyncSink.Emit: must not follow `Close`, because sending on a closed channel panics.
- AsyncSinks.AsyncSink.Close: setting the flag and closing the channel are one step.
- OrderService.Service.PlaceOrder: leaves out the fill events published to the bus, and a missing store, which the constructor always replaces.
- Reconnect.Run: leaves out the end of the loop on close or cancellation; a run is any number of its rounds.
- DummyVenue.DummyVenueConnector.CancelOrder: orders are values, so a response handed out earlier does not show the new status.
- Migrations.Runner.Up: the versions are given in ascending order; how they are put together from embedded files (`All`) is not modelled, nor what the scripts do to other tables.
- Publishing.CleanInPlace: splitting the URL is not modelled.
- Redaction of credentials; the Kraken, OTC and Postgres components; authentication; the book aggregator.
