# bftrader, verified

A Dafny model of the logic of bftrader, a futures trading platform: the backtest exchange
(`btgateway`), the tick, bar and contract store (`datafeed`), and the in-memory machinery of
the CTP gateway (`ctpgateway`, `base`). `dafny verify dfyconfig.toml` checks everything.

Each component has a specification on values (what every operation does to its state, and what
every run keeps) and, where the program works on mutable state, classes whose methods are proved
to do exactly what the specification says.

| files | component |
|---|---|
| `Lex`, `Decimal`, `TextOrder` | byte-wise string order and sorted key lists; decimal text, and how numbers compare as text |
| `Backtest`, `BacktestBooks`, `BacktestRuns`, `BacktestOrders`, `BacktestGateway` | the exchange simulator: operations, the conservation laws, whole runs, what becomes of each order, and the class with its order and position objects |
| `StoreKeys`, `Store`, `StoreService`, `StoreMeaning`, `StoreScans`, `StoreRuns`, `StoreHistory`, `StoreAnswers` | the ordered key index with its sentinels: key encoding, operations, cursor loops, what the scans return on isolated and on any series, deletion, whole histories and the answers after them |
| `Ring`, `MarketData` | the tick ring buffer, its readers, and the tick feed that hands out pointers into it |
| `SafeQueue` | the blocking push queue as atomic steps under every interleaving |
| `CmdQueue`, `CtpSession`, `CtpEvents`, `CtpGateway` | the flow-controlled command queue, the login and session state machine, what each event asks and changes, and the class that runs both |
| `PositionQuery`, `PositionForm` | position query callbacks bracketed into notifications, and the form that adds them up |
| `OrderId` | the order-id printer, parser and generator |

Assumptions on texts: symbols and exchanges are not empty and contain no `-`, date characters sort
above `-` (`GoodSymbol`, `GoodExchange`, `GoodDate`). An exchange that extends another one by a
character from `+` to before `=`, such as a digit, puts its ticks inside the other's bracket;
`TickInsideIff` says exactly when. From-to queries and deletions are exact nevertheless
(`FromToExact`, `DeleteTickTakesWindow`). The counted scans of ticks may run into the other series
(`FromCountReturnsAForeignTick`): `FromCountExactIff` and `CountToExactIff` say exactly when their
answers are right on any series, `FromCountExact` and `CountToExact` what they are on a series that
is isolated (`IsolatedIff`, `TicksIsolatedIff`). Bars always are.

Where the code and what it says of itself disagree, the model follows the code:

- `deleteBar` builds `tick-` keys (`datafeed/dbservice.cpp:761-774`), so it removes no bars.
- Three-hour bars print as `h04` (`datafeed/protoutils.cpp:110-113`) and share the series of
  four-hour bars.
- A comment gives the tick filter three minutes, the code five (`ctpgateway/mdsm.cpp:128-151`).
- "Only close-today is supported" (`btgateway/gatewaymgr.cpp:262`) stands over code that accepts
  open and close.
- An order of unknown direction is accepted, freezes nothing and is never matched.
- `MDSM_STOPPED` leaves queued market-data commands in place
  (`ctpgateway/gatewaymgr.cpp:99-104`), so "no command outlives its session" holds for the
  trading side only; `OrphansIff` and `CleanIff` give the exact condition for the other.
- Drawing an order id is two separate accesses to a shared counter (`btgateway/gatewaymgr.cpp:44-48`,
  `ctpgateway/tdsm.cpp:441-445`), made by RPC threads. Two draws that overlap may get one id
  (`OverlappingDrawsBreakBooks`, `OverlappingDrawsRepeat`) or not (`OverlapMayBeHarmless`);
  `SessionIdsDistinctIff` and `ApartIff` give the exact condition. The books of the backtester do
  not survive one id drawn twice, nor a restart under an order drawn but not yet delivered
  (`ResetUnderPostedOrderBreaksBooks`); `BalancedIff` gives the exact condition for any run,
  `BooksOverRuns` a sufficient one on draws, starts and stops alone.
- The form's query button clears what the form holds (`ctpgateway/ui/positionform.cpp:91-98`). Pressed
  while an answer arrives it loses what came before (`ClickWhileArriving`); `FormShowsTheRest` says
  what is left.

## Model

| member | source | states |
|---|---|---|
| `BacktestRuns.BooksOverRuns` | btgateway/gatewaymgr.cpp:44-396 | over every run in which no thread draws an order id inside another one's two accesses to the counter, and the book is not reset under an order drawn but not delivered: positions, frozen volumes and average prices balance against the announced trades and live orders, trades and filled orders match one to one, and every id in the book, waiting or held was issued since the last reset, once |
| `BacktestRuns.BalancedIff` | btgateway/gatewaymgr.cpp:213-396 | for any run of any actions: the books balance in every state of it exactly if every order entered in it found its id free, that is new to the book or held by an order with neither frozen volume nor a trade |
| `BacktestRuns.Run` | btgateway/gatewaymgr.cpp:213-588 | with no assumption on order ids: over any run the long and short entries come in pairs, positions stay non-negative and every live order has its entries, so no look-up is null and no division is by zero |
| `BacktestRuns.PositionConserved` | btgateway/gatewaymgr.cpp:429-432 | a position is the net volume of the announced trades on its entry, lies between 0 and 500 per trade id, and fits 32 bits while the trade counter is at most 4294967 |
| `BacktestRuns.FrozenConserved` | btgateway/gatewaymgr.cpp:294-305 | frozen volume is the sum over the live opening orders of that entry, never negative, 0 when nothing is live |
| `BacktestRuns.CostConserved` | btgateway/gatewaymgr.cpp:427-433 | position times average price is the notional (opens minus closes) of the trades since the entry was last flat; a flat entry has price 0 |
| `BacktestRuns.OneTradePerFilledOrder` | btgateway/gatewaymgr.cpp:403-424 | a filled order has exactly one trade, with its full volume and at a price within its limit |
| `BacktestRuns.TradeHasFilledOrder` | btgateway/gatewaymgr.cpp:412-422 | every trade in the table belongs to a filled order of its volume and side |
| `BacktestRuns.TradeIdsDense` | btgateway/gatewaymgr.cpp:56-64 | the trade table holds exactly the ids 1 to the counter |
| `BacktestRuns.CancelUndoesSend` | btgateway/gatewaymgr.cpp:311-348 | cancelling an order just sent under a new id gives back positions, trades and counters as they were; only the cancelled order remains |
| `BacktestRuns.CompletedOrdersStay` | btgateway/gatewaymgr.cpp:323-327 | a filled or cancelled order never changes until the next start or stop, whatever happens, unless an order is entered under its own id |
| `BacktestRuns.QuietRunsKeepCompleted` | btgateway/gatewaymgr.cpp:355-358 | which no run without overlapping draws does |
| `BacktestRuns.TickReachesFixpoint` | btgateway/gatewaymgr.cpp:350-396 | after a pass in any order no live order is marketable at that price any more, marketable opens are all filled, orders elsewhere are untouched and a further pass changes nothing |
| `BacktestRuns.GotTickReachesFixpoint` | btgateway/gatewaymgr.cpp:350-396 | the same for the key-order pass of the program: nothing marketable is left, marketable opens are filled, other orders untouched, and repeating the tick changes nothing |
| `BacktestRuns.TickHandlesEachHitOnce` | btgateway/gatewaymgr.cpp:355-395 | the orders announced by a pass are exactly the marketable ones, once each, in visiting order |
| `BacktestRuns.PassDecidesCloses` | btgateway/gatewaymgr.cpp:355-395 | in any visiting order, a marketable close is filled exactly if its entry still holds its volume once the orders before it had their turn, opens adding and covered closes taking off; else it is withdrawn |
| `BacktestRuns.PassMovesEntry` | btgateway/gatewaymgr.cpp:355-395 | and the entry ends up with what all of them left |
| `BacktestRuns.GotTickDecidesCloses` | btgateway/gatewaymgr.cpp:355-395 | the same for the key-order pass of the program |
| `BacktestRuns.FirstIdAsTextWins` | btgateway/gatewaymgr.cpp:355-395 | where just two closes hit an entry, in a book of any orders, and together ask for more than it holds, the one whose id comes first as text is filled and the other withdrawn |
| `BacktestOrders.TickTrades` | btgateway/gatewaymgr.cpp:398-424 | every trade a tick announces has the tick's last price and instrument, and the side, offset and volume of an order that met its limit before the tick: a buy at no more, a sell at no less |
| `BacktestOrders.PassTrades` | btgateway/gatewaymgr.cpp:355-395 | the same of a pass in any visiting order |
| `BacktestOrders.TradesQuoted` | btgateway/gatewaymgr.cpp:350-424 | over any run, whatever its order ids, every announced trade has the price and instrument of one of the run's ticks |
| `BacktestOrders.TickedOrder` | btgateway/gatewaymgr.cpp:355-395 | what one tick makes of any order: unchanged unless live, of the tick's instrument, open or close, and at its limit; then an open is filled and a close filled or withdrawn |
| `BacktestOrders.VisitSignals` | btgateway/gatewaymgr.cpp:434-437 | a filled order's trade is entered and announced right before the order's new state; a withdrawn one has no trade |
| `BacktestOrders.SentOrder` | btgateway/gatewaymgr.cpp:213-309 | an order is entered as asked for and announced, and stays live exactly if the book is of its instrument, it is a limit order of 1 to 500 to open or close, and a selling close finds its volume in the long entry, a buying one in the short entry |
| `BacktestOrders.TakenIff` | btgateway/gatewaymgr.cpp:268-290 | in terms of the announced trades: a close is taken exactly if what they bought to open less what they sold to close (for a buy: sold less bought) covers it, an open always |
| `BacktestOrders.TakenCloseIsCovered` | btgateway/gatewaymgr.cpp:483-501 | the check on entry agrees with that at the fill: a close taken, met by a tick while nothing else hits its entry, is filled and not withdrawn |
| `BacktestOrders.EntriesAddUp` | btgateway/gatewaymgr.cpp:425-433 | the long entry holds what the announced trades bought to open less what they sold to close, the short entry what they sold to open less what they bought to close |
| `BacktestOrders.HoldsBySide` | btgateway/gatewaymgr.cpp:293-305 | live buying opens are frozen in the long entry, live selling ones in the short entry |
| `BacktestOrders.CancelledOrder` | btgateway/gatewaymgr.cpp:311-348 | in any safe book a live order is cancelled, whatever its entry holds by now, announced, and an open's volume unfrozen; any other order, and a cancel of any other id, changes nothing |
| `BacktestOrders.EntriesOverRuns` | btgateway/gatewaymgr.cpp:114-160 | over any run the book has one long and one short entry, of the instrument last announced to begin, each named and keyed so, and none before a start or after a stop |
| `BacktestOrders.IdsStartOver` | btgateway/gatewaymgr.cpp:44-48 | after a start or a stop the n-th draw gives the id n |
| `BacktestOrders.DeliveredInOrder` | btgateway/rpcservice.cpp:92 | over any run the loop enters orders in the order they were posted, each under the id drawn for it |
| `TextOrder.GreaterFirstIff` | btgateway/gatewaymgr.cpp:109-110 | of two ids the later one goes first exactly if, cut to as many digits as the earlier one has, it is the smaller number: 10 before 2 |
| `BacktestBooks.SendKeepsBooksIff` | btgateway/gatewaymgr.cpp:213-309 | sending keeps the books exactly when the id is new to the book or the order it replaces holds nothing there (neither live and freezing nor filled) |
| `BacktestBooks.SendBreaksBooks` | btgateway/gatewaymgr.cpp:219 | sending under the id of an order that holds frozen volume or a fill breaks the books |
| `BacktestBooks.CancelKeepsBooks` | btgateway/gatewaymgr.cpp:311-348 | cancelling any id, known or not, keeps the books |
| `BacktestBooks.TickOrdersKeepsBooks` | btgateway/gatewaymgr.cpp:350-396 | a pass over the orders in any sequence keeps the books |
| `BacktestBooks.OpenKeepsNotional` | btgateway/gatewaymgr.cpp:429-432 | the average-price update of an opening fill adds volume times price to position times price |
| `BacktestBooks.CloseKeepsNotional` | btgateway/gatewaymgr.cpp:523-529 | that of a closing fill takes it off, unless the position becomes flat |
| `BacktestBooks.StartBooks` | btgateway/gatewaymgr.cpp:114-151 | a started book balances |
| `BacktestRuns.ResetUnderPostedOrderBreaksBooks` | btgateway/gatewaymgr.cpp:66-72 | a concrete run (order drawn and posted, book restarted, order drawn again, both delivered) after which the books do not balance |
| `BacktestRuns.OverlappingDrawsBreakBooks` | btgateway/gatewaymgr.cpp:44-48 | a concrete run without any reset: two threads count the counter up before either reads it back, post under one id, and the books do not balance |
| `BacktestRuns.SameIdTwiceBreaksBooks` | btgateway/gatewaymgr.cpp:219 | two opening orders delivered under one id lose the first one's frozen volume |
| `BacktestGateway.GatewayMgr.Start` | btgateway/gatewaymgr.cpp:114-151 | the new book is the specification's: counters at 0, two flat entries, no orders or trades |
| `BacktestGateway.GatewayMgr.Stop` | btgateway/gatewaymgr.cpp:153-160 | everything is cleared and the stop announced |
| `BacktestGateway.GatewayMgr.CountOrder` | btgateway/gatewaymgr.cpp:44-48 | the first access of a draw counts the counter up |
| `BacktestGateway.GatewayMgr.LookOrderId` | btgateway/gatewaymgr.cpp:44-48 | the second reads it back |
| `BacktestGateway.GatewayMgr.GenOrderId` | btgateway/gatewaymgr.cpp:102-112 | with nothing in between, the next decimal id |
| `BacktestGateway.GatewayMgr.SendOrder` | btgateway/gatewaymgr.cpp:204-211 | draws an id and sends under it |
| `BacktestGateway.GatewayMgr.SendOrderWithId` | btgateway/gatewaymgr.cpp:213-309 | the new book is the specification's: the order entered, live exactly if it passes the five checks, its volume frozen if it opens |
| `BacktestGateway.GatewayMgr.Validate` | btgateway/gatewaymgr.cpp:237-291 | the order is left live exactly if it passes all checks, else marked cancelled |
| `BacktestGateway.GatewayMgr.CancelOrder` | btgateway/gatewaymgr.cpp:311-348 | unknown or completed orders are left alone; a live one is cancelled and its frozen volume returned |
| `BacktestGateway.GatewayMgr.OnGotTick` | btgateway/gatewaymgr.cpp:350-396 | the loop over the order table in key order does to the book what the specification's pass does |
| `BacktestGateway.GatewayMgr.MatchOrder` | btgateway/gatewaymgr.cpp:359-394 | one iteration: at most one of the four handlers runs |
| `BacktestGateway.GatewayMgr.OnLongOpen` | btgateway/gatewaymgr.cpp:398-438 | fills a buying open: order, trade table, long entry with averaged price and less frozen |
| `BacktestGateway.GatewayMgr.OnShortOpen` | btgateway/gatewaymgr.cpp:440-480 | fills a selling open on the short entry |
| `BacktestGateway.GatewayMgr.OnLongClose` | btgateway/gatewaymgr.cpp:483-534 | withdraws the order if the short entry is too small by now, else fills it |
| `BacktestGateway.GatewayMgr.OnShortClose` | btgateway/gatewaymgr.cpp:537-588 | withdraws the order if the long entry is too small by now, else fills it |
| `StoreKeys.TickKeyInjective` | datafeed/dbservice.cpp:161-162 | for fields without dashes the tick key determines symbol, exchange, date and time |
| `StoreKeys.RecordKeyInjective` | datafeed/dbservice.cpp:188-189 | any record key, of ticks or bars, determines its series, date and time |
| `StoreKeys.RecordKeyOrder` | datafeed/dbservice.cpp:290-292 | byte order of two keys of a series is the order of (date, time) |
| `StoreKeys.SentinelsBracket` | datafeed/dbservice.cpp:224-232 | every key of a series lies strictly between its two sentinels |
| `StoreKeys.BracketOnlyOwn` | datafeed/dbservice.cpp:224-244 | inside the bracket sort only keys of the series itself and of series whose name extends its own by a character from '+' to before '=' |
| `StoreKeys.TickInsideIff` | datafeed/dbservice.cpp:224-232 | a tick record of one symbol and exchange lies between the tick sentinels of another pair exactly if the symbols agree and the exchange is the same or extends the other by such a character |
| `StoreKeys.BarsUndisturbed` | datafeed/dbservice.cpp:236-244 | into a series of bars nothing sorts |
| `StoreKeys.BarSeriesSharedIff` | datafeed/protoutils.cpp:110-113 | for fields without dashes two bar series share their keys exactly when symbol, exchange and period agree, three- and four-hour bars counting as one period |
| `StoreMeaning.FromToExact` | datafeed/dbservice.cpp:372-419 | from and to, on any series, whatever sorts into its bracket: exactly the records of the series in the window, ascending, each once, with or without sentinels |
| `StoreMeaning.BetweenMoments` | datafeed/dbservice.cpp:372-419 | because between the keys of two moments of a series stand keys of its own records only, whatever other series the store holds |
| `StoreMeaning.FromCountExact` | datafeed/dbservice.cpp:327-370 | from and count, on an isolated series: the first count records at or after the start, exactly if the last sentinel is in place, or no more records are asked for than there are, or no key of the store sorts behind the sentinel's |
| `StoreMeaning.CountToExact` | datafeed/dbservice.cpp:277-325 | count and to, on an isolated series with both sentinels: the last count records up to and including the first one at or after the end |
| `StoreScans.FromCountExactIff` | datafeed/dbservice.cpp:327-370 | any series, sentinel or not: the answer is the first count records at or after the start exactly if no other series' key, and no sentinel, is among the keys the scan takes |
| `StoreScans.CountToExactIff` | datafeed/dbservice.cpp:277-325 | any series, sentinels or not: the answer is the last count records up to and including the first one at or after the end exactly if nothing is asked for, or no foreign key is among the keys the scan takes and the series is empty or the store has a key at or after the end |
| `StoreMeaning.CountToMeetsLastUntilIff` | datafeed/dbservice.cpp:297-316 | that is "the last count records up to the end" exactly when nothing is asked for, the end is stored, or nothing later is |
| `StoreMeaning.IsolatedIff` | datafeed/dbservice.cpp:224-244 | a series' bracket holds its own records only exactly if no series that intrudes has a key in the store |
| `StoreMeaning.TicksIsolatedIff` | datafeed/dbservice.cpp:226-232 | for ticks: exactly if the store holds no ticks and no tick sentinels of the symbol on an exchange that extends this one by a character from '+' to before '=' |
| `StoreMeaning.BarsIsolated` | datafeed/dbservice.cpp:236-244 | for bars: always |
| `StoreMeaning.LettersIsolate` | datafeed/dbservice.cpp:226-232 | for ticks always, too, where exchanges are written in characters behind '=' |
| `StoreMeaning.OnlyOwnRecords` | datafeed/dbservice.cpp:290-316 | between the sentinels of an isolated series stand its own records, each under its own key |
| `StoreMeaning.ListsUnique` | datafeed/dbservice.cpp:372-419 | a window has only one listing |
| `StoreRuns.DeleteTickTakesWindow` | datafeed/dbservice.cpp:691-740 | deleteTick removes exactly the records of the window, whatever sorts into the series' bracket; every other key keeps its value |
| `StoreRuns.QueryAfterDelete` | datafeed/dbservice.cpp:691-740 | the listing of any window of any series after a deletion is the listing before, minus the deleted window |
| `StoreRuns.FromToAfterDelete` | datafeed/dbservice.cpp:372-419 | so is the answer of a from-to query |
| `StoreRuns.DeletedKeysAreTickRecords` | datafeed/dbservice.cpp:721-735 | whatever texts a request carries, a range deletion only reaches tick records |
| `StoreHistory.StoreOverRuns` | datafeed/dbservice.cpp:103-248 | after any sequence of insertions, deletions and cleanings the store is well formed, has the contract sentinels and both sentinels of the ticks and every bar period of every contract inserted since the last clean, deleted or not, and its contracts are those inserted and not deleted since |
| `StoreHistory.LiveIsKnown` | datafeed/dbservice.cpp:805-853 | the live contracts are among those inserted since the last clean |
| `StoreHistory.StarListsLiveContracts` | datafeed/dbservice.cpp:625-663 | getContract("*", "*") returns the live contracts, each once, in key order |
| `StoreHistory.OneListsLiveContract` | datafeed/dbservice.cpp:665-685 | getContract of a pair, unless it asks for all, returns that live contract or nothing |
| `StoreHistory.KnownBarScansExact` | datafeed/dbservice.cpp:449-555 | on every reachable store both counted scans are exact for the bars of any period of any contract inserted since the last clean, deleted or not |
| `StoreHistory.KnownTickScansExact` | datafeed/dbservice.cpp:277-370 | and for its ticks, if no operation since the last clean brought ticks or a contract on an exchange that reaches in |
| `StoreHistory.IsolatedOverRuns` | datafeed/dbservice.cpp:146-248 | a series of ticks is isolated if no such operation came since the last clean |
| `StoreHistory.DeleteBarMissesItsBar` | datafeed/dbservice.cpp:761-774 | a concrete store: one bar inserted, its day deleted, the bar still there |
| `StoreHistory.CountToReturnsALaterTick` | datafeed/dbservice.cpp:297-316 | a concrete store: asked for the last tick up to a day, it answers with one of the day after |
| `StoreHistory.FromCountReturnsAForeignTick` | datafeed/dbservice.cpp:345-369 | a concrete store: asked for the first tick of a contract without ticks, it answers with one of another exchange |
| `StoreHistory.DeleteBarKeepsBars` | datafeed/dbservice.cpp:743-803 | deleteBar never removes a bar |
| `StoreHistory.DeleteBarMeetsPromiseIff` | datafeed/dbservice.cpp:761-774 | deleteBar does what its name promises exactly when no bar is in the window and no tick is dated with the period's name in the corresponding range |
| `StoreAnswers.StoredOverRuns` | datafeed/dbservice.cpp:103-197 | on every reachable store the ticks and bars are exactly those last inserted for their series, date and time, three- and four-hour bars sharing one, and not deleted by a range deletion or cleaned away since |
| `StoreAnswers.LaterBarReplaces` | datafeed/dbservice.cpp:187-197 | a bar replaces the one stored for its place, a four-hour bar the three-hour bar of the same moment |
| `StoreAnswers.GetTickOverRuns` | datafeed/dbservice.cpp:250-275 | over any history getTick answers, of the ticks so inserted: with both dates those of the window; with an end the last count up to and including the first one at or after it; with a start the first count from it on; counted requests for contracts inserted since the last clean, unless another exchange reaches in |
| `StoreAnswers.GetBarOverRuns` | datafeed/dbservice.cpp:421-447 | and getBar of the bars, with no exception |
| `StoreAnswers.QueryAnswers` | datafeed/dbservice.cpp:263-270 | the same of any well-formed store, given what it holds: the dates of a request choose the answer |
| `StoreAnswers.IncompleteRequest` | datafeed/dbservice.cpp:254-274 | without symbol, exchange or period, or without dates, nothing is answered |
| `StoreService.DbService.GetFromTo` | datafeed/dbservice.cpp:372-419 | the forward cursor loop returns the values of the keys between the two bounds, sentinels left out |
| `StoreService.DbService.GetFromCount` | datafeed/dbservice.cpp:327-370 | the counted forward loop returns the first count values from the start to the last sentinel |
| `StoreService.DbService.GetCountTo` | datafeed/dbservice.cpp:277-325 | the counted backward loop returns, oldest first, the last count values from the first sentinel up to where the cursor was placed |
| `StoreService.DbService.GetTick` | datafeed/dbservice.cpp:250-275 | dispatch on which dates are given; incomplete requests return nothing |
| `StoreService.DbService.GetBar` | datafeed/dbservice.cpp:421-447 | the same for bars of a known period |
| `StoreService.DbService.InsertTick` | datafeed/dbservice.cpp:146-171 | one record under its key; incomplete ticks are ignored |
| `StoreService.DbService.InsertBar` | datafeed/dbservice.cpp:173-198 | the same for bars |
| `StoreService.DbService.InsertContract` | datafeed/dbservice.cpp:200-248 | the contract, both tick sentinels and both sentinels of every period |
| `StoreService.DbService.GetContract` | datafeed/dbservice.cpp:615-688 | one contract, or for "*" all of them up to the first value without a symbol |
| `StoreService.DbService.DeleteTick` | datafeed/dbservice.cpp:691-740 | the batch built by the cursor loop removes the keys between the bounds, sentinels left out |
| `StoreService.DbService.DeleteBar` | datafeed/dbservice.cpp:743-803 | the same over the keys deleteBar actually builds |
| `StoreService.DbService.DeleteContract` | datafeed/dbservice.cpp:805-853 | one contract key, or for "*" everything between the contract sentinels; series and sentinels stay |
| `StoreService.DbService.CleanAll` | datafeed/dbservice.cpp:855-873 | an empty store with the contract sentinels |
| `Ring.RingBuffer.Put` | base/ringbuffer.h:33-45 | the history grows by the item, the newest items stand in their slots, and the pointer returned is the item's slot |
| `Ring.RingBuffer.NthNewest` | base/ringbuffer.h:64-76 | k back from the head, wrapping, stands a pointer to the item put k before the newest, or null if there was none |
| `Ring.RingBuffer.SlotContent` | base/ringbuffer.h:33-45 | at any later time the slot of item j holds the last item put there: item j itself exactly while at most N - 1 items followed it |
| `Ring.GetLatestTick` | ctpgateway/gatewaymgr.cpp:321-325 | a pointer to the newest item, or null |
| `Ring.GetPreLatestTick` | ctpgateway/gatewaymgr.cpp:327-335 | a pointer to the item before the newest, or null; with a single slot the newest itself |
| `Ring.ScanTicks` | ctpgateway/ui/ringbufferform.cpp:63-89 | min(n, N/2) rows, newest first, each with its predecessor |
| `MarketData.MdSm.IsValidTick` | ctpgateway/mdsm.cpp:134-156 | with the filter on, a tick is refused exactly when it is first or brings no volume and its time is five minutes or more off |
| `MarketData.RefusedIff` | ctpgateway/mdsm.cpp:128-151 | refused are exactly, with the filter on, first ticks and those without new volume that are five minutes or more off the clock |
| `MarketData.MdSm.OnRtnDepthMarketData` | ctpgateway/mdsm.cpp:93-104 | an accepted tick is put once and a pair emitted that points to it and to the tick accepted before; a refused one changes nothing |
| `MarketData.PairsDoNotAlias` | ctpgateway/mdsm.cpp:101-103 | with two slots or more current and previous are never the same slot |
| `MarketData.TranslatedVolumeIs` | ctpgateway/ctputils.cpp:299 | a pair translated before its predecessor's slot is reused yields the volume step; one put later, the step runs backwards to the newest tick |
| `MarketData.MdSm.TranslateTick` | ctpgateway/ctputils.cpp:286-299 | what the receiver computes from the slots as they are by then |
| `MarketData.MdSm.VolumesTelescope` | ctpgateway/ctputils.cpp:299 | for a receiver that always kept up, the volumes after the first add up to last volume minus first volume |
| `SafeQueue.InvOverRuns` | base/safequeue.h:17-49 | under every interleaving: enqueued is delivered, then deleted, then pending, in order; null and deletion only after shutdown; a sleeper has a wake-up due exactly when there is an item or a shutdown |
| `SafeQueue.NoLostWakeUp` | base/safequeue.h:24-42 | a due wake-up makes the consumer return, with the oldest item or null; a sleeper without one has nothing to do |
| `SafeQueue.NothingDeliveredAfterShutdown` | base/safequeue.h:30-36 | after shutdown nothing is delivered any more, whatever is still enqueued |
| `SafeQueue.EverythingArrives` | base/safequeue.h:17-42 | before shutdown, a consumer that keeps calling receives all that was enqueued |
| `SafeQueue.Drains` | base/safequeue.h:24-42 | n calls hand out the n oldest items in order |
| `SafeQueue.SafeQueue.Enqueue` | base/safequeue.h:17-22 | one atomic step of the queue |
| `SafeQueue.SafeQueue.Dequeue` | base/safequeue.h:24-42 | dequeue from one point where it holds the lock to the next where it gives it up, deletion loop included |
| `SafeQueue.SafeQueue.Shutdown` | base/safequeue.h:44-49 | one atomic step of the queue |
| `CmdQueue.RunCmdKeepsInv` | ctpgateway/gatewaymgr.cpp:495-513 | running a command keeps: first in first out and no command twice; request ids count the calls; each waiting command is the one given and due as long after it was given as it asked for, or a second after its last call; one refused with -3 or -2 enters the queue; none was called from the queue before its stored time |
| `CmdQueue.OnTimerKeepsInv` | ctpgateway/gatewaymgr.cpp:466-493 | so does a tick of the timer, whatever the exchange answers; a command is consumed only by an answer other than -3 |
| `CmdQueue.ResetCmdsKeepsInv` | ctpgateway/gatewaymgr.cpp:514-526 | so does dropping the queue; each queued command counts as dropped once |
| `CmdQueue.CommandFate` | ctpgateway/gatewaymgr.cpp:466-526 | of all commands given, each is in exactly one place: settled by its first call, which was answered neither -3 nor -2; or, having entered the queue with a delay or after such an answer, waiting or dropped with every later call answered -3, or consumed by its last call's other answer |
| `CmdQueue.ReadyIff` | ctpgateway/gatewaymgr.cpp:475-478 | with a 32-bit clock a command counts as due exactly from its time to the next wrap, or before its time when the clock wraps in between |
| `CmdQueue.NotBeforeItsTime` | ctpgateway/gatewaymgr.cpp:475-478 | a queued command was never called before its time unless the clock wrapped meanwhile |
| `CmdQueue.QueueDrains` | ctpgateway/gatewaymgr.cpp:466-493 | with r refusals and ticks at most gap apart, a queue of n commands is empty gap for each command and a second plus gap for each refusal after the last of them is due |
| `CmdQueue.WaitingGetsCalled` | ctpgateway/gatewaymgr.cpp:466-493 | by then every command that waited was called and answered other than -3 |
| `CtpSession.SafeOverRuns` | ctpgateway/gatewaymgr.cpp:62-292 | over any run of status events (stale ones included), commands, starts, stops and timer ticks: a login flag implies its session, every queued trading command belongs to the live trading session, live sessions hold their API, and the queue keeps its laws |
| `CtpSession.StepKeepsInv` | ctpgateway/gatewaymgr.cpp:62-188 | one event keeps all that; and exactly three things end the program or touch an absent object: a market-data login when the trading session must be remade from an incomplete profile, contracts arriving without both sessions, and a due command whose market-data session is gone |
| `CtpSession.TradingEndsQueue` | ctpgateway/gatewaymgr.cpp:123-159 | a trading session that disconnects or goes away takes every queued command with it, of either side |
| `CtpSession.StopBegins` | ctpgateway/gatewaymgr.cpp:269-292 | stop removes the market-data session at once and forbids trading to log in again |
| `CtpSession.StopLasts` | ctpgateway/gatewaymgr.cpp:107-160 | until the next start no session is made again, whatever events still come, and any trading status but a late login ends the trading session (or the program has ended) |
| `CtpSession.OrphansIff` | ctpgateway/gatewaymgr.cpp:62-105 | commands are orphaned exactly by an event that ends the market-data session (a stop, its STOPPED, or without auto-login a connect, disconnect or failed login) while a command waits that needs it, unless it is a stop that finds trading not logged in and drops the queue |
| `CtpSession.CleanIff` | ctpgateway/gatewaymgr.cpp:62-292 | all along a run no command outlives its session exactly if no event of it meets that condition in the state before it |
| `CtpSession.CleanRunsNeverDangle` | ctpgateway/gatewaymgr.cpp:466-493 | over such a run the timer never touches anything that is gone |
| `CtpSession.StoppedLoginDangles` | ctpgateway/gatewaymgr.cpp:269-292 | a concrete run: stopping while a market-data login waits makes the timer call a deleted session |
| `CtpSession.StoppedQueryDangles` | ctpgateway/tdsm.cpp:609-611 | a concrete run: stopping while the instrument query waits makes it reset an absent market-data session |
| `CtpEvents.StepGives` | ctpgateway/gatewaymgr.cpp:62-292 | which commands an event gives to run, and no other: a login a second after a connect and a minute after a failed login while auto-login is on, the instrument query when the second side logs in, a logout on stop, what the user asks for, subscription and settlement for the contracts |
| `CtpEvents.GivenOverRuns` | ctpgateway/gatewaymgr.cpp:62-292 | over any run the commands given are exactly those |
| `CtpEvents.UserCommandTried` | ctpgateway/gatewaymgr.cpp:495-513 | a user's command is called at once, of the kind asked for, and waits a second behind the others exactly if answered -3 or -2 |
| `CtpEvents.FailedLoginWaits` | ctpgateway/gatewaymgr.cpp:91-98 | a failed login, with auto-login on, waits behind the others to come again in a minute |
| `CtpEvents.FailedLoginEnds` | ctpgateway/gatewaymgr.cpp:91-98 | without auto-login it ends the session |
| `CtpEvents.SessionsChange` | ctpgateway/gatewaymgr.cpp:62-292 | which events end, make or keep each session, and which set and clear its login and auto-login flags |
| `CtpGateway.GatewayMgr.OnMdSmStateChanged` | ctpgateway/gatewaymgr.cpp:62-105 | the new state is the specification's, the STOPPED event raised inside stop() included |
| `CtpGateway.GatewayMgr.OnTdSmStateChanged` | ctpgateway/gatewaymgr.cpp:107-160 | the same for the trading side |
| `CtpGateway.GatewayMgr.TryStartSubscrible` | ctpgateway/gatewaymgr.cpp:252-267 | queries instruments once both sides are logged in, remakes a missing trading session; neither pointer is null where it is used |
| `CtpGateway.GatewayMgr.Start` | ctpgateway/gatewaymgr.cpp:162-188 | both sessions made and started, or neither kept |
| `CtpGateway.GatewayMgr.Stop` | ctpgateway/gatewaymgr.cpp:269-292 | market data stopped, trading logged out or stopped |
| `CtpGateway.GatewayMgr.UserCommand` | ctpgateway/gatewaymgr.cpp:528-573 | ignored without a trading session, else tried at once |
| `CtpGateway.GatewayMgr.OnGotContracts` | ctpgateway/gatewaymgr.cpp:294-311 | subscription and settlement confirmation, both sessions used unchecked |
| `CtpGateway.GatewayMgr.RunCmd` | ctpgateway/gatewaymgr.cpp:495-513 | the queue and counter become the specification's |
| `CtpGateway.GatewayMgr.OnRunCmdInterval` | ctpgateway/gatewaymgr.cpp:466-493 | the head is called when due, kept on -3, else dequeued |
| `CtpGateway.GatewayMgr.ResetCmds` | ctpgateway/gatewaymgr.cpp:514-526 | the queue becomes empty |
| `CtpGateway.GatewayMgr.Handle` | ctpgateway/gatewaymgr.cpp:62-526 | any event in any safe state gives the specified state, safe again while the program is up |
| `CtpGateway.GatewayMgr.StopMd` | ctpgateway/mdsm.cpp:210-225 | the session gives up its API and is gone when stop() returns |
| `CtpGateway.GatewayMgr.StopTd` | ctpgateway/tdsm.cpp:516-532 | the same for trading, the queue dropped |
| `PositionQuery.TdSmSpi.OnRspQryInvestorPosition` | ctpgateway/tdsm.cpp:157-214 | whatever callbacks came, the signals emitted are those promised: for each finished request with records BEGIN, its positions, END, and an open block for the one under way |
| `PositionQuery.Cut` | ctpgateway/tdsm.cpp:200-213 | callbacks fall into pieces that each end with their only last callback, and an unfinished rest |
| `PositionQuery.PromisedAppend` | ctpgateway/tdsm.cpp:189-213 | what one callback adds to the signals |
| `PositionForm.PositionForm.OnGotPosition` | ctpgateway/ui/positionform.cpp:55-86 | the entry for the key becomes the merged one, or is dropped if empty; the map keeps holding the sums of the positions heard |
| `PositionForm.PositionForm.OnGotNotification` | ctpgateway/ui/positionform.cpp:199-211 | BEGIN clears the map and suspends drawing, END resumes it |
| `PositionForm.PositionForm.OnClicked` | ctpgateway/ui/positionform.cpp:91-99 | the button clears the map |
| `PositionForm.HoldsAfter` | ctpgateway/ui/positionform.cpp:66-83 | merging one position turns the sums of the positions so far into the sums with it, empty entries dropped without loss |
| `PositionForm.CombinedStandsFor` | ctpgateway/ui/positionform.cpp:68-76 | a merged entry has the summed position, yd position and frozen volume, and position times price is the summed cost |
| `PositionForm.OrderDoesNotMatter` | ctpgateway/ui/positionform.cpp:55-86 | the same positions in any order leave the same map |
| `PositionForm.FormHoldsLastDelivered` | ctpgateway/ui/positionform.cpp:199-211 | a form that heard all the callbacks caused holds the records of the last request that delivered any |
| `PositionForm.FormAgreesWithExchange` | ctpgateway/tdsm.cpp:157-214 | a valid form that heard all a valid session emitted, and whose own button was pressed at any time but cleared no positions since the last BEGIN, shows, per symbol and direction, the sums of Position, Position minus TodayPosition, the frozen volume of the side, and PositionCost over records with a position, of the last records delivered |
| `PositionForm.FormShowsTheRest` | ctpgateway/ui/positionform.cpp:91-99 | wherever the button was pressed, the form shows those sums of the last few of the records delivered, of all of them exactly if nothing was cleared away since the last BEGIN |
| `PositionForm.ClicksClear` | ctpgateway/ui/positionform.cpp:91-99 | what a form holds is the end of what it would hold without the clicks, and all of it exactly if they cleared nothing away since the last BEGIN |
| `PositionForm.ClickWhileArriving` | ctpgateway/ui/positionform.cpp:91-99 | a concrete click between two records of one answer: the form keeps the second only |
| `PositionForm.FormShowsRecords` | ctpgateway/tdsm.cpp:157-196 | the same for any map that holds the sums of what the signals carried |
| `PositionForm.TranslatedSound` | ctpgateway/tdsm.cpp:176-181 | a translated record's price times position is its PositionCost |
| `PositionForm.KeyInjective` | ctpgateway/ui/positionform.cpp:62 | for symbols without a dot the key determines symbol and direction |
| `OrderId.TranslateBfOrderId` | ctpgateway/ctputils.cpp:320-329 | the three parts as 32-bit integers; 0, 0, 0 unless there are exactly two dots |
| `OrderId.RoundTrip` | ctpgateway/ctputils.cpp:320-334 | every triple of 32-bit integers, negatives included, comes back from its text, which is front, session and reference in this order |
| `OrderId.FormatInjective` | ctpgateway/ctputils.cpp:331-334 | different triples have different texts |
| `OrderId.Split` | ctpgateway/ctputils.cpp:323 | the parts contain no dot and joined by dots give the text |
| `OrderId.TdSmSpi.CountOrderRef` | ctpgateway/tdsm.cpp:441-445 | a thread's first access: the counter steps by one and wraps from the largest 32-bit integer to the smallest |
| `OrderId.TdSmSpi.LookOrderRef` | ctpgateway/tdsm.cpp:441-445 | its second: the counter as it is by then |
| `OrderId.TdSmSpi.PrintBfOrderId` | ctpgateway/tdsm.cpp:544-549 | the id printed parses back to what was read and the session of the moment |
| `OrderId.TdSmSpi.GenBfOrderId` | ctpgateway/tdsm.cpp:544-549 | with nothing in between: the next id, which parses back to session and counter |
| `OrderId.IdsRepeatIff` | ctpgateway/tdsm.cpp:441-445 | however threads and logins interleave, two ids of a session are equal exactly if the counts they were read at differ by a multiple of 2^32 |
| `OrderId.SessionIdsDistinctIff` | ctpgateway/tdsm.cpp:441-445 | in one session, all draws ended and fewer than 2^32 made: the ids are pairwise distinct exactly if no thread was ever about to read a count already read |
| `OrderId.ApartIff` | ctpgateway/tdsm.cpp:441-445 | over any run, logins included: the counts printed and held are all different in every state exactly if no event, in the state before it, is such a read |
| `OrderId.ApartIds` | ctpgateway/tdsm.cpp:441-445 | different counts below 2^32 make different ids, and without a draw under way distinct ids mean different counts |
| `OrderId.QuietNeverRereads` | ctpgateway/tdsm.cpp:441-445 | draws that do not overlap, with no login inside one, never read a count twice |
| `OrderId.QuietIdsDistinct` | ctpgateway/tdsm.cpp:441-445 | so their ids are pairwise distinct, whatever came in earlier sessions, until the counter has gone all the way round |
| `OrderId.OverlapMayBeHarmless` | ctpgateway/tdsm.cpp:441-445 | a concrete run: two draws overlap, and a third count between their reads gives them different ids |
| `OrderId.OverlappingDrawsRepeat` | ctpgateway/tdsm.cpp:441-445 | a concrete run: two threads count before either reads, and print one id twice |
| `OrderId.LoginStartsOver` | ctpgateway/tdsm.cpp:441-445 | a login starts the numbering over: the first draw after it gets number 1 of the new session |
| `Decimal.SignedOfText` | ctpgateway/ctputils.cpp:333 | the decimal text of an integer denotes that integer |

## Left out

- gRPC, Qt signals and threads, the CTP SDK and protobuf encoding: events, answers of the API and
  the clock are inputs, messages are values.
- LevelDB itself: the store is a map from keys to values with a cursor over its sorted keys.
- A stream closed by its reader, which truncates an answer to a prefix (`getBarCountTo` goes on
  instead), and the pause of half a second after each tick of a from-to scan.
- Parse failures of stored values, which abort the program.
- Floating point: prices are reals.
- The account record of the backtester, documented as meaningless, and the insert, trade and
  cancel dates and times.
- 32-bit overflow of the backtester's counters and of the form's sums; `PositionConserved` bounds
  positions.
- Queries of orders, positions and account in the backtester: they only emit what is there.
- Statuses unknown and partly traded, which the backtester never assigns.
- BacktestGateway.GatewayMgr.GenOrderId: the class runs one method at a time; the interleavings of
  RPC threads with the loop and each other are those of `BacktestRuns.Step`, and of `OrderId.Step`
  for the CTP gateway.
- MarketData.MdSm.OnRtnDepthMarketData: one ring; the map from symbols to rings, the parsing of a
  tick's date and time, and pairs still undelivered when the rings are freed are not modelled.
- Reads of a ring slot by one thread while another overwrites it.
- SafeQueue.InvOverRuns: one consumer; shutdown wakes only one waiter. The destruction of queues
  after a fixed sleep is not modelled.
- CmdQueue.QueueDrains: assumes that the 32-bit clock does not wrap while the queue drains.
- CtpGateway.GatewayMgr.OnRunCmdInterval: a command is a value in the queue, since nothing else
  refers to it; a command whose object is gone is flagged instead of having an effect.
- CtpGateway.GatewayMgr.RunCmd: what a command does besides being called and answered, such as
  clearing contracts and rings before the instrument query, is not modelled.
- OrderId.TranslateBfOrderId: white space around a number, which toInt skips, counts as no number.
- PositionForm.FormAgreesWithExchange: needs symbols without a dot and 0 <= TodayPosition <= Position,
  which the exchange guarantees. Net positions, on which the program aborts while logging, and
  positions of unknown contracts, on which it aborts, are not inputs.
- Mapping exchange order numbers back to order ids, order and trade reports of the CTP gateway,
  settlement, account queries: plain copying.
- Windows, tables, dialogs, logging, profiles, crash handling and the other tools.
