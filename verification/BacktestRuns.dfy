/** What the books give a caller, what one tick does to the whole order table,
    and the conservation laws over whole runs. */
module BacktestRuns {
  import opened Lex
  import opened Decimal
  import opened Backtest
  import opened BacktestBooks

  const INT32_MAX := 0x7fff_ffff

  // ---------------------------------------------------------------- consequences of the books

  lemma {:induction false} NetVolumeBounded(log: seq<Trade>, key: string)
    requires forall i :: 0 <= i < |log| ==> 1 <= log[i].volume <= 500
    ensures NetVolume(log, key) <= 500 * |log|
  {
    if log != [] { NetVolumeBounded(log[..|log| - 1], key); }
  }

  /** Positions are what the announced trades add up to, never negative, and
      fit 32 bits while the trade counter is at most 4294967. */
  lemma PositionConserved(s: State, key: string)
    requires Books(s) && key in s.positions
    ensures s.positions[key].position == NetVolume(HeardTrades(s.events), key)
    ensures 0 <= s.positions[key].position <= 500 * s.tradeId
    ensures s.tradeId <= 4294967 ==> s.positions[key].position <= INT32_MAX
  {
    var log := HeardTrades(s.events);
    assert EntryBalances(s.positions[key], key, log, s.orders);
    forall i | 0 <= i < |log| ensures 1 <= log[i].volume <= 500 {
      assert Fills(log[i], s.orders[log[i].orderId]);
    }
    NetVolumeBounded(log, key);
  }

  /** Frozen volume is that of the live opening orders: never negative, zero when nothing is live. */
  lemma FrozenConserved(s: State, key: string)
    requires Books(s) && key in s.positions
    ensures s.positions[key].frozen == Held(s.orders, key) >= 0
    ensures (forall id :: id in s.orders ==> s.orders[id].status != NotTraded) ==> s.positions[key].frozen == 0
  {
    assert EntryBalances(s.positions[key], key, HeardTrades(s.events), s.orders);
    HeldByNonNegative(s.orders, s.orders.Keys, key);
  }

  /** Average price times position is the notional of the trades since the entry was last flat. */
  lemma CostConserved(s: State, key: string)
    requires Books(s) && key in s.positions
    ensures var log := HeardTrades(s.events);
            var p := s.positions[key];
            && p.position as real * p.price == NetNotional(log[LastFlat(log, key)..], key)
            && (p.position == 0 ==> p.price == 0.0)
  {
    assert EntryBalances(s.positions[key], key, HeardTrades(s.events), s.orders);
  }

  lemma {:induction false} TableOf(log: seq<Trade>)
    requires forall i :: 0 <= i < |log| ==> log[i].tradeId == Text(i + 1)
    ensures forall i :: 0 <= i < |log| ==> log[i].tradeId in TradeTable(log) && TradeTable(log)[log[i].tradeId] == log[i]
    ensures forall k :: k in TradeTable(log) ==> exists i :: 0 <= i < |log| && log[i].tradeId == k
  {
    hide Text;
    if log != [] {
      var n := |log| - 1;
      TableOf(log[..n]);
      forall i | 0 <= i < n ensures log[i].tradeId != log[n].tradeId && log[i] == log[..n][i] {
        if log[i].tradeId == log[n].tradeId { TextInjective(i + 1, n + 1); }
      }
      forall k | k in TradeTable(log) ensures exists i :: 0 <= i < |log| && log[i].tradeId == k {
        if k != log[n].tradeId {
          var i :| 0 <= i < n && log[..n][i].tradeId == k;
          assert log[i].tradeId == k;
        }
      }
    }
  }

  /** The position of a trade in the log. */
  lemma TradeInLog(s: State, k: string) returns (i: nat)
    requires Books(s) && k in s.trades
    ensures var log := HeardTrades(s.events);
            i < |log| == s.tradeId && log[i] == s.trades[k] && k == log[i].tradeId == Text(i + 1)
  {
    hide Text, Safe, Balanced, OneToOne, HeardTrades, HeardOrders;
    var log := HeardTrades(s.events);
    TableOf(log);
    i :| 0 <= i < |log| && log[i].tradeId == k;
  }

  /** The trade table holds exactly the ids 1 .. tradeId. */
  lemma TradeIdsDense(s: State, k: string)
    requires Books(s)
    ensures k in s.trades <==> Issued(k, s.tradeId)
  {
    hide Text, Safe, Balanced, OneToOne, HeardTrades, HeardOrders;
    var log := HeardTrades(s.events);
    TableOf(log);
    if k in s.trades {
      var i := TradeInLog(s, k);
      assert 1 <= i + 1 <= s.tradeId && k == Text(i + 1);
    }
    if Issued(k, s.tradeId) {
      var j :| 1 <= j <= s.tradeId && k == Text(j);
      assert log[j - 1].tradeId == k;
    }
  }

  /** A completely traded order has exactly one trade: its whole volume, within its limit. */
  lemma OneTradePerFilledOrder(s: State, id: string) returns (k: string)
    requires Books(s) && id in s.orders && s.orders[id].status == AllTraded
    ensures k in s.trades && s.trades[k].orderId == id
    ensures s.trades[k].volume == s.orders[id].total == s.orders[id].traded
    ensures Marketable(s.orders[id], s.trades[k].price)
    ensures forall j :: j in s.trades && s.trades[j].orderId == id ==> j == k
  {
    hide Text, Safe, Balanced, HeardTrades, HeardOrders;
    var log := HeardTrades(s.events);
    TableOf(log);
    var i :| 0 <= i < |log| && log[i].orderId == id;
    assert Fills(log[i], s.orders[log[i].orderId]);
    k := log[i].tradeId;
    forall j | j in s.trades && s.trades[j].orderId == id ensures j == k {
      var m := TradeInLog(s, j);
      assert log[m].orderId == log[i].orderId;
    }
  }

  /** Every trade belongs to a completely traded order of the same instrument and side. */
  lemma TradeHasFilledOrder(s: State, k: string)
    requires Books(s) && k in s.trades
    ensures s.trades[k].tradeId == k
    ensures s.trades[k].orderId in s.orders && Fills(s.trades[k], s.orders[s.trades[k].orderId])
  {
    hide Text, Safe, Balanced, HeardTrades, HeardOrders, Fills;
    var i := TradeInLog(s, k);
    assert HeardTrades(s.events)[i].orderId in s.orders;
  }

  /** Cancelling a fresh order at once gives back exactly what entering it froze. */
  lemma CancelUndoesSend(s: State, id: string, req: OrderReq)
    requires Safe(s) && id !in s.orders
    ensures var r := CancelOrder(SendOrderWithId(s, id, req), id);
            && r.positions == s.positions && r.trades == s.trades
            && r.tradeId == s.tradeId && r.orderId == s.orderId
            && r.orders == s.orders[id := NewOrder(id, req, Cancelled)]
  {
    hide LongKey, ShortKey;
    var sent := SendOrderWithId(s, id, req);
    assert sent.orders[id].status == NotTraded <==> Accepted(s, req);
    if Accepted(s, req) && Freezes(req.direction, req.offset) {
      var key := MovedKey(req.symbol, req.exchange, req.direction, req.offset);
      assert CancelOrder(sent, id).positions == sent.positions[key := s.positions[key]];
    }
  }

  // ---------------------------------------------------------------- one tick

  /** What one tick may do to one order, whatever else happens in the same tick. */
  predicate TickOutcome(before: Order, after: Order, tick: Tick) {
    if !Hit(before, tick) then after == before
    else if before.offset == Open then after == before.(status := AllTraded, traded := before.total)
    else after == before.(status := AllTraded, traded := before.total) || after == before.(status := Cancelled)
  }

  lemma TickOrderOutcome(s: State, id: string, tick: Tick)
    requires Safe(s)
    ensures var r := TickOrder(s, id, tick);
            && r.orders.Keys == s.orders.Keys
            && (forall x :: x in s.orders && x != id ==> r.orders[x] == s.orders[x])
            && (id in s.orders ==> TickOutcome(s.orders[id], r.orders[id], tick))
  {
    hide LongKey, ShortKey, OpenPosition, ClosePosition, Text;
  }

  /** In whatever sequence the orders are visited, each meets its own outcome. */
  lemma {:induction false} TickOrdersOutcome(s: State, ids: seq<string>, tick: Tick)
    requires Safe(s)
    requires forall i, j :: 0 <= i < j < |ids| ==> ids[i] != ids[j]
    ensures var r := TickOrders(s, ids, tick);
            && r.orders.Keys == s.orders.Keys
            && (forall x :: x in s.orders && x !in ids ==> r.orders[x] == s.orders[x])
            && (forall x :: x in s.orders && x in ids ==> TickOutcome(s.orders[x], r.orders[x], tick))
  {
    hide LongKey, ShortKey, Safe, TickOrder, TickOutcome;
    if ids != [] {
      var n := |ids| - 1;
      var before := TickOrders(s, ids[..n], tick);
      TickOrdersOutcome(s, ids[..n], tick);
      TickOrderOutcome(before, ids[n], tick);
      assert forall x :: x in ids <==> x in ids[..n] || x == ids[n];
    }
  }

  lemma {:induction false} NoHitNoChange(s: State, ids: seq<string>, tick: Tick)
    requires Safe(s)
    requires forall id :: id in s.orders ==> !Hit(s.orders[id], tick)
    ensures TickOrders(s, ids, tick) == s
  {
    if ids != [] { NoHitNoChange(s, ids[..|ids| - 1], tick); }
  }

  /** After a tick no live order can still trade at that price, every opening order that
      could trade has, orders elsewhere are untouched, and the same tick again changes
      nothing: in any visiting sequence that covers the order table. */
  lemma TickReachesFixpoint(s: State, ids: seq<string>, again: seq<string>, tick: Tick)
    requires Safe(s)
    requires forall i, j :: 0 <= i < j < |ids| ==> ids[i] != ids[j]
    requires forall id :: id in s.orders ==> id in ids
    ensures var r := TickOrders(s, ids, tick);
            && r.orders.Keys == s.orders.Keys
            && (forall id :: id in r.orders ==> !Hit(r.orders[id], tick))
            && (forall id :: id in s.orders && Hit(s.orders[id], tick) && s.orders[id].offset == Open ==> r.orders[id].status == AllTraded)
            && (forall id :: id in s.orders && !Hit(s.orders[id], tick) ==> r.orders[id] == s.orders[id])
            && TickOrders(r, again, tick) == r
  {
    TickOrdersOutcome(s, ids, tick);
    NoHitNoChange(TickOrders(s, ids, tick), again, tick);
  }

  lemma GotTickReachesFixpoint(s: State, tick: Tick)
    requires Safe(s)
    ensures var r := OnGotTick(s, tick);
            && r.orders.Keys == s.orders.Keys
            && (forall id :: id in r.orders ==> !Hit(r.orders[id], tick))
            && (forall id :: id in s.orders && Hit(s.orders[id], tick) && s.orders[id].offset == Open ==>
                  r.orders[id].status == AllTraded)
            && (forall id :: id in s.orders && !Hit(s.orders[id], tick) ==> r.orders[id] == s.orders[id])
            && OnGotTick(r, tick) == r
  {
    var ids := SortedKeys(s.orders.Keys);
    AscendingDistinct(ids);
    TickReachesFixpoint(s, ids, SortedKeys(OnGotTick(s, tick).orders.Keys), tick);
  }

  /** The ids of the orders a signal stream announces. */
  function Announced(events: seq<Event>): seq<string> {
    if events == [] then []
    else
      var before := Announced(events[..|events| - 1]);
      if events[|events| - 1].GotOrder? then before + [events[|events| - 1].order.id] else before
  }

  function HitIds(s: State, ids: seq<string>, tick: Tick): seq<string> {
    if ids == [] then []
    else
      var id := ids[|ids| - 1];
      HitIds(s, ids[..|ids| - 1], tick) + if id in s.orders && Hit(s.orders[id], tick) then [id] else []
  }

  lemma AnnouncedAppend(events: seq<Event>, e: Event)
    ensures Announced(events + [e]) == Announced(events) + if e.GotOrder? then [e.order.id] else []
  {
    assert (events + [e])[..|events|] == events;
  }

  lemma TickOrderAnnounces(s: State, id: string, tick: Tick)
    requires Safe(s) && (id in s.orders ==> s.orders[id].id == id)
    ensures Announced(TickOrder(s, id, tick).events) ==
            Announced(s.events) + if id in s.orders && Hit(s.orders[id], tick) then [id] else []
  {
    hide LongKey, ShortKey, OpenPosition, ClosePosition, Announced;
    if id in s.orders && Hit(s.orders[id], tick) {
      if Outgrown(s, id) {
        AnnouncedAppend(s.events, GotOrder(Withdraw(s, id).orders[id]));
      } else {
        var done := Execute(s, id, tick.lastPrice).orders[id];
        var trade := TradeFor(s.orders[id], Text(s.tradeId + 1), tick.lastPrice);
        AnnouncedAppend(s.events, GotTrade(trade));
        AnnouncedAppend(s.events + [GotTrade(trade)], GotOrder(done));
      }
    }
  }

  /** Exactly the marketable orders are handled, once each, in the visiting sequence. */
  lemma {:induction false} TickHandlesEachHitOnce(s: State, ids: seq<string>, tick: Tick)
    requires Safe(s)
    requires forall i, j :: 0 <= i < j < |ids| ==> ids[i] != ids[j]
    requires forall id :: id in s.orders ==> s.orders[id].id == id
    ensures Announced(TickOrders(s, ids, tick).events) == Announced(s.events) + HitIds(s, ids, tick)
  {
    hide LongKey, ShortKey, Safe, TickOrder, TickOutcome, Announced;
    if ids != [] {
      var n := |ids| - 1;
      var before := TickOrders(s, ids[..n], tick);
      TickHandlesEachHitOnce(s, ids[..n], tick);
      TickOrdersOutcome(s, ids[..n], tick);
      if ids[n] in s.orders { assert before.orders[ids[n]] == s.orders[ids[n]]; }
      TickOrderAnnounces(before, ids[n], tick);
    }
  }

  // ---------------------------------------------------------------- closes that compete

  /** This order trades on the entry `key` at this tick. */
  predicate HitsEntry(s: State, id: string, tick: Tick, key: string) {
    && id in s.orders && Hit(s.orders[id], tick)
    && MovedKey(s.orders[id].symbol, s.orders[id].exchange, s.orders[id].direction, s.orders[id].offset) == key
  }

  /** What the entry holds once the orders `ids` had their turn: an open adds its volume, a close
      takes its volume off if so much is held by then. */
  function HeldAfter(s: State, ids: seq<string>, tick: Tick, key: string): int
    requires key in s.positions
  {
    if ids == [] then
      s.positions[key].position
    else
      var held := HeldAfter(s, ids[..|ids| - 1], tick, key);
      var id := ids[|ids| - 1];
      if !HitsEntry(s, id, tick, key) then held
      else if s.orders[id].offset == Open then held + s.orders[id].total
      else if held >= s.orders[id].total then held - s.orders[id].total
      else held
  }

  /** One visit: the entry moves by the order, and the order's fate is decided by what is held. */
  lemma VisitDecides(s: State, id: string, tick: Tick, key: string)
    requires Safe(s) && key in s.positions
    ensures var r := TickOrder(s, id, tick);
            var held := s.positions[key].position;
            && key in r.positions
            && r.positions[key].position ==
                 (if !HitsEntry(s, id, tick, key) then held
                  else if s.orders[id].offset == Open then held + s.orders[id].total
                  else if held >= s.orders[id].total then held - s.orders[id].total
                  else held)
            && (HitsEntry(s, id, tick, key) && s.orders[id].offset == Close ==>
                  && id in r.orders
                  && r.orders[id].status == if held >= s.orders[id].total then AllTraded else Cancelled)
  {
    hide LongKey, ShortKey, Safe, Text, OpenPrice, ClosePrice;
    if id in s.orders && Hit(s.orders[id], tick) {
      LiveOrderBacked(s, id);
    }
  }

  /** An order not yet visited is as it was, and hits what it would have hit. */
  lemma NotYetVisited(s: State, ids: seq<string>, id: string, tick: Tick, key: string)
    requires Safe(s) && id !in ids && forall i, j :: 0 <= i < j < |ids| ==> ids[i] != ids[j]
    ensures var r := TickOrders(s, ids, tick);
            && (id in r.orders <==> id in s.orders)
            && (id in s.orders ==> r.orders[id] == s.orders[id])
            && (HitsEntry(r, id, tick, key) <==> HitsEntry(s, id, tick, key))
  {
    hide LongKey, ShortKey, Safe, TickOrders, TickOutcome;
    TickOrdersOutcome(s, ids, tick);
  }

  /** Whatever the visiting sequence, the entry ends up with what the orders left of it. */
  lemma {:induction false} PassMovesEntry(s: State, ids: seq<string>, tick: Tick, key: string)
    requires Safe(s) && key in s.positions && forall i, j :: 0 <= i < j < |ids| ==> ids[i] != ids[j]
    ensures var r := TickOrders(s, ids, tick);
            key in r.positions && r.positions[key].position == HeldAfter(s, ids, tick, key)
  {
    hide Safe, TickOrder, HitsEntry, LongKey, ShortKey;
    if ids != [] {
      var front, id := ids[..|ids| - 1], ids[|ids| - 1];
      var before := TickOrders(s, front, tick);
      PassMovesEntry(s, front, tick, key);
      NotYetVisited(s, front, id, tick, key);
      VisitDecides(before, id, tick, key);
      HitsKnown(s, id, tick, key);
    }
  }

  lemma HitsKnown(s: State, id: string, tick: Tick, key: string)
    ensures HitsEntry(s, id, tick, key) ==> id in s.orders
  {
  }

  /** A marketable close is filled exactly if, when its turn comes, the entry still holds its
      volume; else it is withdrawn. */
  lemma {:induction false} PassDecidesCloses(s: State, ids: seq<string>, tick: Tick, key: string, i: nat)
    requires Safe(s) && key in s.positions && forall m, n :: 0 <= m < n < |ids| ==> ids[m] != ids[n]
    requires i < |ids| && HitsEntry(s, ids[i], tick, key) && s.orders[ids[i]].offset == Close
    ensures var r := TickOrders(s, ids, tick);
            && ids[i] in r.orders
            && r.orders[ids[i]].status ==
                 if HeldAfter(s, ids[..i], tick, key) >= s.orders[ids[i]].total then AllTraded else Cancelled
  {
    hide Safe, TickOrder, HitsEntry, HeldAfter, LongKey, ShortKey;
    var n := |ids| - 1;
    var front := ids[..n];
    var before := TickOrders(s, front, tick);
    HitsKnown(s, ids[i], tick, key);
    if i == n {
      PassMovesEntry(s, front, tick, key);
      NotYetVisited(s, front, ids[i], tick, key);
      VisitDecides(before, ids[i], tick, key);
    } else {
      assert front[..i] == ids[..i];
      PassDecidesCloses(s, front, tick, key, i);
      OtherVisit(before, ids[n], ids[i], tick);
    }
  }

  lemma OtherVisit(s: State, id: string, other: string, tick: Tick)
    requires Safe(s) && other in s.orders && other != id
    ensures other in TickOrder(s, id, tick).orders && TickOrder(s, id, tick).orders[other] == s.orders[other]
  {
    hide Safe, TickOrder, TickOutcome;
    TickOrderOutcome(s, id, tick);
  }

  /** So do the ids decide among competing closes, compared as text: the i-th order of the book in
      that order is filled exactly if the orders before it leave enough. */
  lemma GotTickDecidesCloses(s: State, tick: Tick, key: string, i: nat)
    requires Safe(s) && key in s.positions && i < |SortedKeys(s.orders.Keys)|
    requires var id := SortedKeys(s.orders.Keys)[i];
             HitsEntry(s, id, tick, key) && s.orders[id].offset == Close
    ensures var ids := SortedKeys(s.orders.Keys);
            var r := OnGotTick(s, tick).orders;
            && ids[i] in r
            && r[ids[i]].status ==
                 if HeldAfter(s, ids[..i], tick, key) >= s.orders[ids[i]].total then AllTraded else Cancelled
  {
    hide Safe, TickOrders, HitsEntry, HeldAfter, SortedKeys, Less;
    AscendingDistinct(SortedKeys(s.orders.Keys));
    PassDecidesCloses(s, SortedKeys(s.orders.Keys), tick, key, i);
  }

  lemma {:induction false} NothingHitsEntry(s: State, ids: seq<string>, tick: Tick, key: string)
    requires key in s.positions && forall id :: id in ids ==> !HitsEntry(s, id, tick, key)
    ensures HeldAfter(s, ids, tick, key) == s.positions[key].position
  {
    hide HitsEntry;
    if ids != [] {
      NothingHitsEntry(s, ids[..|ids| - 1], tick, key);
    }
  }

  /** One order of a list hits the entry and takes its volume off. */
  lemma {:induction false} OneCloseTaken(s: State, ids: seq<string>, tick: Tick, key: string, i: nat)
    requires key in s.positions && i < |ids| && forall m, n :: 0 <= m < n < |ids| ==> ids[m] != ids[n]
    requires forall id :: id in ids ==> (HitsEntry(s, id, tick, key) <==> id == ids[i])
    requires ids[i] in s.orders && s.orders[ids[i]].offset == Close
    requires s.positions[key].position >= s.orders[ids[i]].total
    ensures HeldAfter(s, ids, tick, key) == s.positions[key].position - s.orders[ids[i]].total
  {
    hide HitsEntry;
    var n := |ids| - 1;
    var front := ids[..n];
    assert ids[n] in ids;
    if i == n {
      forall id | id in front ensures !HitsEntry(s, id, tick, key) {
        assert id in ids;
      }
      NothingHitsEntry(s, front, tick, key);
    } else {
      assert forall id :: id in front ==> id in ids;
      OneCloseTaken(s, front, tick, key, i);
    }
  }

  /** Where just two closing orders hit an entry and together ask for more than it holds, the one
      whose id comes first as text is filled and the other withdrawn. */
  lemma FirstIdAsTextWins(s: State, a: string, b: string, tick: Tick, key: string)
    requires Safe(s) && key in s.positions && Less(a, b)
    requires forall id :: id in s.orders ==> (HitsEntry(s, id, tick, key) <==> id == a || id == b)
    requires a in s.orders && b in s.orders && s.orders[a].offset == Close && s.orders[b].offset == Close
    requires s.orders[a].total <= s.positions[key].position < s.orders[a].total + s.orders[b].total
    ensures var r := OnGotTick(s, tick).orders;
            a in r && b in r && r[a].status == AllTraded && r[b].status == Cancelled
  {
    hide Safe, TickOrders, HitsEntry, HeldAfter, SortedKeys, Less, OnGotTick;
    var ids := SortedKeys(s.orders.Keys);
    AscendingDistinct(ids);
    var i :| 0 <= i < |ids| && ids[i] == a;
    var j :| 0 <= j < |ids| && ids[j] == b;
    if j < i { LessAsymmetric(a, b); }
    LessIrreflexive(a);
    forall id | id in ids[..i] ensures !HitsEntry(s, id, tick, key) {
      var m :| 0 <= m < i && ids[..i][m] == id;
      assert ids[m] in ids;
    }
    NothingHitsEntry(s, ids[..i], tick, key);
    GotTickDecidesCloses(s, tick, key, i);
    assert ids[..j][i] == a;
    forall id | id in ids[..j] ensures HitsEntry(s, id, tick, key) <==> id == a {
      var m :| 0 <= m < j && ids[..j][m] == id;
      assert ids[m] in ids && ids[m] != ids[j];
    }
    OneCloseTaken(s, ids[..j], tick, key, i);
    GotTickDecidesCloses(s, tick, key, j);
  }

  // ---------------------------------------------------------------- runs

  /** The threads that draw order ids: the gateway's event loop and those of the RPC service. */
  datatype Thread = Loop | Rpc(n: nat)

  /** A thread that has counted an order up but not read the counter back, or has read it. */
  datatype Draw = Counted(req: OrderReq) | Holding(id: string, req: OrderReq)

  /** Drawing an id is two accesses to the shared counter, counting it up and reading it back.
      The loop then enters the order at once; an RPC thread posts it to the loop's inbox, from
      which `Deliver` takes it. */
  datatype Action = Begin(symbol: string, exchange: string) | End
                  | Count(thread: Thread, req: OrderReq) | Look(thread: Thread) | Post(thread: Thread)
                  | Deliver | Cancel(id: string) | Quote(tick: Tick)

  datatype System = System(book: State, inbox: seq<(string, OrderReq)>, draws: map<Thread, Draw>)

  const BOOTED := System(INITIAL, [], map[])

  /** The loop does one thing at a time. */
  predicate Busy(sys: System) {
    Loop in sys.draws
  }

  predicate Counting(sys: System, t: Thread) {
    t in sys.draws && sys.draws[t].Counted?
  }

  predicate Posting(sys: System, t: Thread) {
    t in sys.draws && sys.draws[t].Holding?
  }

  function Step(sys: System, a: Action): (r: System)
    requires Safe(sys.book)
    ensures Safe(r.book)
  {
    match a
    case Begin(y, e) => StartSafe(sys.book, y, e); if Busy(sys) then sys else sys.(book := Start(sys.book, y, e))
    case End => if Busy(sys) then sys else sys.(book := Stop(sys.book))
    case Count(t, req) =>
      if t in sys.draws then sys
      else sys.(book := CountOrder(sys.book), draws := sys.draws[t := Counted(req)])
    case Look(t) =>
      if !Counting(sys, t) then sys
      else if t == Loop then
        sys.(book := SendOrderWithId(sys.book, CurrentId(sys.book), sys.draws[t].req), draws := sys.draws - {t})
      else
        sys.(draws := sys.draws[t := Holding(CurrentId(sys.book), sys.draws[t].req)])
    case Post(t) =>
      if !Posting(sys, t) then sys
      else sys.(inbox := sys.inbox + [(sys.draws[t].id, sys.draws[t].req)], draws := sys.draws - {t})
    case Deliver =>
      if Busy(sys) || sys.inbox == [] then sys
      else sys.(book := SendOrderWithId(sys.book, sys.inbox[0].0, sys.inbox[0].1), inbox := sys.inbox[1..])
    case Cancel(id) => if Busy(sys) then sys else sys.(book := CancelOrder(sys.book, id))
    case Quote(tick) => if Busy(sys) then sys else sys.(book := OnGotTick(sys.book, tick))
  }

  /** Safety needs no assumption: whatever happens, no look-up is null and no division by zero occurs. */
  function Run(sys: System, actions: seq<Action>): (r: System)
    requires Safe(sys.book)
    ensures Safe(r.book)
  {
    if actions == [] then sys else Step(Run(sys, actions[..|actions| - 1]), actions[|actions| - 1])
  }

  // ---------------------------------------------------------------- the laws over runs

  /** The id under which an action enters an order, if it does. */
  predicate Enters(sys: System, a: Action, id: string) {
    match a
    case Deliver => !Busy(sys) && sys.inbox != [] && id == sys.inbox[0].0
    case Look(t) => t == Loop && Counting(sys, t) && id == CurrentId(sys.book)
    case _ => false
  }

  /** An action that enters an order finds the order's id free. */
  predicate EntersFree(sys: System, a: Action) {
    match a
    case Deliver => Busy(sys) || sys.inbox == [] || IdFree(sys.book, sys.inbox[0].0)
    case Look(t) => t != Loop || !Counting(sys, t) || IdFree(sys.book, CurrentId(sys.book))
    case _ => true
  }

  lemma CountKeepsBooks(s: State)
    requires Books(s)
    ensures Books(CountOrder(s))
  {
    hide LongKey, ShortKey;
  }

  lemma StepBooksIff(sys: System, a: Action)
    requires Books(sys.book)
    ensures Books(Step(sys, a).book) <==> EntersFree(sys, a)
  {
    hide LongKey, ShortKey, Safe, OneToOne, Numbered, Balanced, HeardOrders, HeardTrades, CancelOrder,
         SendOrderWithId, TickOrders, Text, IdFree;
    match a
    case Begin(y, e) => StartBooks(sys.book, y, e);
    case End => StopBooks(sys.book);
    case Count(_, _) => CountKeepsBooks(sys.book);
    case Look(t) =>
      if t == Loop && Counting(sys, t) {
        SendKeepsBooksIff(sys.book, CurrentId(sys.book), sys.draws[t].req);
      }
    case Post(_) =>
    case Deliver => if sys.inbox != [] { SendKeepsBooksIff(sys.book, sys.inbox[0].0, sys.inbox[0].1); }
    case Cancel(id) => CancelKeepsBooks(sys.book, id);
    case Quote(tick) => TickOrdersKeepsBooks(sys.book, SortedKeys(sys.book.orders.Keys), tick);
  }

  /** Every state of the run balances. */
  ghost predicate AlwaysBalanced(actions: seq<Action>) {
    forall k :: 0 <= k <= |actions| ==> Books(Run(BOOTED, actions[..k]).book)
  }

  /** Every order entered in the run found its id free. */
  predicate AlwaysFree(actions: seq<Action>) {
    forall k :: 0 <= k < |actions| ==> EntersFree(Run(BOOTED, actions[..k]), actions[k])
  }

  /** The conservation laws hold all along a run, of any actions whatever, exactly if every
      order entered in it found its id free. */
  lemma {:induction false} BalancedIff(actions: seq<Action>)
    ensures AlwaysBalanced(actions) <==> AlwaysFree(actions)
  {
    hide Books, Run, EntersFree;
    if actions == [] {
      assert Books(Run(BOOTED, []).book) by { NothingRun(); }
    } else {
      var n := |actions| - 1;
      var front := actions[..n];
      BalancedIff(front);
      assert forall k :: 0 <= k <= n ==> front[..k] == actions[..k];
      assert AlwaysBalanced(front) <==> forall k :: 0 <= k <= n ==> Books(Run(BOOTED, actions[..k]).book);
      assert actions[..n + 1] == actions;
      if AlwaysBalanced(front) {
        assert front[..n] == front;
        RunLast(actions);
        StepBooksIff(Run(BOOTED, front), actions[n]);
      }
    }
  }

  lemma NothingRun()
    ensures Books(Run(BOOTED, []).book)
  {
    InitialBooks();
  }

  lemma RunLast(actions: seq<Action>)
    requires actions != []
    ensures Run(BOOTED, actions) == Step(Run(BOOTED, actions[..|actions| - 1]), actions[|actions| - 1])
  {
  }

  predicate Resets(a: Action) {
    a.Begin? || a.End?
  }

  /** No thread starts a draw inside another's two accesses, and the book is not reset while a
      draw is under way or a drawn order not yet delivered. */
  ghost predicate QuietAction(sys: System, a: Action) {
    && (a.Count? ==> forall t :: !Counting(sys, t))
    && (Resets(a) ==> sys.inbox == [] && sys.draws == map[])
  }

  ghost predicate QuietRun(sys: System, actions: seq<Action>)
    requires Safe(sys.book)
  {
    forall k :: 0 <= k < |actions| ==> QuietAction(Run(sys, actions[..k]), actions[k])
  }

  predicate Issued(id: string, upTo: int) {
    exists j :: 1 <= j <= upTo && id == Text(j)
  }

  /** How far the ids are given out: not yet the one being counted up. */
  ghost function GivenOut(sys: System): int {
    if exists t :: Counting(sys, t) then sys.book.orderId - 1 else sys.book.orderId
  }

  /** Ids in the book, in the inbox and held by threads were all issued since the last reset, once
      each; one thread at most is between its two accesses. */
  ghost predicate IdsFresh(sys: System) {
    && GivenOut(sys) >= 0
    && (forall t, u :: Counting(sys, t) && Counting(sys, u) ==> t == u)
    && (forall id :: id in sys.book.orders ==> Issued(id, GivenOut(sys)))
    && (forall i :: 0 <= i < |sys.inbox| ==>
          Issued(sys.inbox[i].0, GivenOut(sys)) && sys.inbox[i].0 !in sys.book.orders)
    && (forall i, j :: 0 <= i < j < |sys.inbox| ==> sys.inbox[i].0 != sys.inbox[j].0)
    && HeldFresh(sys, GivenOut(sys))
  }

  ghost predicate HeldFresh(sys: System, upTo: int) {
    && (forall t :: Posting(sys, t) ==> Issued(sys.draws[t].id, upTo) && sys.draws[t].id !in sys.book.orders)
    && (forall t, i :: Posting(sys, t) && 0 <= i < |sys.inbox| ==> sys.draws[t].id != sys.inbox[i].0)
    && (forall t, u :: Posting(sys, t) && Posting(sys, u) && t != u ==> sys.draws[t].id != sys.draws[u].id)
  }

  lemma NextIdUnissued(n: int)
    ensures !Issued(Text(n + 1), n)
    ensures forall id :: Issued(id, n) ==> Issued(id, n + 1)
    ensures n >= 0 ==> Issued(Text(n + 1), n + 1)
  {
    hide Text;
    if j :| 1 <= j <= n && Text(n + 1) == Text(j) { TextInjective(n + 1, j); }
    forall id | Issued(id, n) ensures Issued(id, n + 1) {
      var j :| 1 <= j <= n && id == Text(j);
      assert 1 <= j <= n + 1 && id == Text(j);
    }
    if n >= 0 { assert 1 <= n + 1 <= n + 1 && Text(n + 1) == Text(n + 1); }
  }

  ghost predicate Good(sys: System) {
    Books(sys.book) && IdsFresh(sys)
  }

  lemma SendOrders(s: State, id: string, req: OrderReq)
    requires Safe(s)
    ensures SendOrderWithId(s, id, req).orderId == s.orderId
    ensures SendOrderWithId(s, id, req).orders.Keys == s.orders.Keys + {id}
    ensures forall x :: x in s.orders && x != id ==> SendOrderWithId(s, id, req).orders[x] == s.orders[x]
  {
  }

  lemma {:induction false} TickKeepsCounter(s: State, ids: seq<string>, tick: Tick)
    requires Safe(s)
    ensures TickOrders(s, ids, tick).orderId == s.orderId
  {
    if ids != [] { TickKeepsCounter(s, ids[..|ids| - 1], tick); }
  }

  /** Fresh ids never meet an order that they could replace. */
  lemma FreshEntersFree(sys: System, a: Action)
    requires Safe(sys.book) && IdsFresh(sys)
    ensures EntersFree(sys, a)
    ensures forall id :: Enters(sys, a, id) ==> id !in sys.book.orders
  {
    hide Safe, Text, Issued, HeldFresh;
    if a.Look? && Counting(sys, a.thread) {
      NextIdUnissued(sys.book.orderId - 1);
    }
  }

  lemma CountKeepsFresh(sys: System, t: Thread, req: OrderReq)
    requires Safe(sys.book) && IdsFresh(sys) && forall u :: !Counting(sys, u)
    ensures IdsFresh(Step(sys, Count(t, req)))
  {
    hide Safe, Text, Issued;
    var r := Step(sys, Count(t, req));
    if t !in sys.draws {
      assert Counting(r, t);
      assert forall u :: u != t ==> (Counting(r, u) <==> Counting(sys, u));
      assert forall u :: Counting(r, u) ==> u == t;
      assert GivenOut(r) == GivenOut(sys);
      assert forall u :: Posting(r, u) <==> Posting(sys, u);
    }
  }

  lemma LookKeepsFresh(sys: System, t: Thread)
    requires Safe(sys.book) && IdsFresh(sys)
    ensures IdsFresh(Step(sys, Look(t)))
  {
    hide Safe, Text, Issued, SendOrderWithId;
    var r := Step(sys, Look(t));
    if Counting(sys, t) {
      var n := sys.book.orderId - 1;
      NextIdUnissued(n);
      assert GivenOut(sys) == n;
      assert forall u :: u != t ==> (Counting(r, u) <==> Counting(sys, u));
      assert forall u :: !Counting(r, u);
      if t == Loop {
        SendOrders(sys.book, CurrentId(sys.book), sys.draws[t].req);
        assert forall u :: Posting(r, u) <==> Posting(sys, u);
      } else {
        assert forall u :: Posting(r, u) <==> Posting(sys, u) || u == t;
      }
      assert GivenOut(r) == n + 1;
    }
  }

  lemma PostKeepsFresh(sys: System, t: Thread)
    requires Safe(sys.book) && IdsFresh(sys)
    ensures IdsFresh(Step(sys, Post(t)))
  {
    hide Safe, Text, Issued;
    var r := Step(sys, Post(t));
    if Posting(sys, t) {
      assert forall u :: Counting(r, u) <==> Counting(sys, u);
      assert forall u :: Posting(r, u) <==> Posting(sys, u) && u != t;
      assert GivenOut(r) == GivenOut(sys);
    }
  }

  lemma DeliverKeepsFresh(sys: System)
    requires Safe(sys.book) && IdsFresh(sys)
    ensures IdsFresh(Step(sys, Deliver))
  {
    hide Safe, Text, Issued, SendOrderWithId;
    var r := Step(sys, Deliver);
    if sys.inbox != [] {
      SendOrders(sys.book, sys.inbox[0].0, sys.inbox[0].1);
      assert forall u :: Counting(r, u) <==> Counting(sys, u);
      assert forall u :: Posting(r, u) <==> Posting(sys, u);
      if !Busy(sys) {
        assert GivenOut(r) == GivenOut(sys);
        assert forall i :: 0 <= i < |r.inbox| ==> r.inbox[i] == sys.inbox[i + 1];
      }
    }
  }

  /** An action that keeps orders' ids and the counter. */
  lemma SameIdsKeepFresh(sys: System, book: State)
    requires IdsFresh(sys) && book.orderId == sys.book.orderId && book.orders.Keys == sys.book.orders.Keys
    ensures IdsFresh(sys.(book := book))
  {
    hide Text, Issued;
    var r := sys.(book := book);
    assert forall u :: Counting(r, u) <==> Counting(sys, u);
    assert forall u :: Posting(r, u) <==> Posting(sys, u);
    assert forall id :: id in book.orders <==> id in sys.book.orders;
  }

  lemma ResetFresh(sys: System)
    requires sys.inbox == [] && sys.draws == map[] && sys.book.orderId == 0 && sys.book.orders == map[]
    ensures IdsFresh(sys)
  {
  }

  lemma StepKeepsIdsFresh(sys: System, a: Action)
    requires Safe(sys.book) && IdsFresh(sys) && QuietAction(sys, a)
    ensures IdsFresh(Step(sys, a))
  {
    hide LongKey, ShortKey, Safe, IdsFresh, SendOrderWithId, TickOrders, Text, Counting;
    match a
    case Begin(y, e) => ResetFresh(sys.(book := Start(sys.book, y, e)));
    case End => ResetFresh(sys.(book := Stop(sys.book)));
    case Count(t, req) => CountKeepsFresh(sys, t, req);
    case Look(t) => LookKeepsFresh(sys, t);
    case Post(t) => PostKeepsFresh(sys, t);
    case Deliver => DeliverKeepsFresh(sys);
    case Cancel(id) => SameIdsKeepFresh(sys, CancelOrder(sys.book, id));
    case Quote(tick) =>
      var ids := SortedKeys(sys.book.orders.Keys);
      AscendingDistinct(ids);
      TickOrdersOutcome(sys.book, ids, tick);
      TickKeepsCounter(sys.book, ids, tick);
      SameIdsKeepFresh(sys, OnGotTick(sys.book, tick));
  }

  /** One quiet action. */
  lemma StepKeepsGood(sys: System, a: Action)
    requires Good(sys) && QuietAction(sys, a)
    ensures Good(Step(sys, a))
  {
    hide LongKey, ShortKey, OneToOne, Numbered, Balanced, HeardOrders, HeardTrades, IdsFresh, Step, QuietAction,
         EntersFree, KeysTogether;
    FreshEntersFree(sys, a);
    StepBooksIff(sys, a);
    StepKeepsIdsFresh(sys, a);
  }

  lemma InitialGood()
    ensures Good(BOOTED)
  {
    InitialBooks();
    ResetFresh(BOOTED);
  }

  lemma QuietFront(sys: System, actions: seq<Action>)
    requires Safe(sys.book) && QuietRun(sys, actions) && actions != []
    ensures QuietRun(sys, actions[..|actions| - 1])
    ensures QuietAction(Run(sys, actions[..|actions| - 1]), actions[|actions| - 1])
  {
    hide Safe, QuietAction, Run;
    var front := actions[..|actions| - 1];
    forall k | 0 <= k < |front| ensures QuietAction(Run(sys, front[..k]), front[k]) {
      assert front[..k] == actions[..k];
    }
  }

  /** Every conservation law holds in every state of every run in which draws do not overlap and
      the book is not reset under an order drawn but not delivered. */
  lemma {:induction false} BooksOverRuns(actions: seq<Action>)
    requires QuietRun(BOOTED, actions)
    ensures Good(Run(BOOTED, actions))
  {
    hide Good, Step, QuietRun, QuietAction, Safe;
    InitialGood();
    BootedSafe();
    if actions != [] {
      QuietFront(BOOTED, actions);
      BooksOverRuns(actions[..|actions| - 1]);
      StepKeepsGood(Run(BOOTED, actions[..|actions| - 1]), actions[|actions| - 1]);
    }
  }

  predicate Terminal(o: Order) {
    o.status == AllTraded || o.status == Cancelled
  }

  lemma StepKeepsCompleted(sys: System, a: Action, id: string)
    requires Safe(sys.book) && id in sys.book.orders && Terminal(sys.book.orders[id])
    requires !Resets(a) && !Enters(sys, a, id)
    ensures id in Step(sys, a).book.orders && Step(sys, a).book.orders[id] == sys.book.orders[id]
  {
    hide LongKey, ShortKey, Safe, SendOrderWithId, TickOrders, Text;
    match a
    case Count(_, _) =>
    case Look(t) =>
      if t == Loop && Counting(sys, t) {
        SendOrders(sys.book, CurrentId(sys.book), sys.draws[t].req);
      }
    case Post(_) =>
    case Deliver => if sys.inbox != [] { SendOrders(sys.book, sys.inbox[0].0, sys.inbox[0].1); }
    case Cancel(_) =>
    case Quote(tick) =>
      var ids := SortedKeys(sys.book.orders.Keys);
      AscendingDistinct(ids);
      TickOrdersOutcome(sys.book, ids, tick);
  }

  /** A completed order never changes before the next reset, unless its own id is used again; */
  lemma {:induction false} CompletedOrdersStay(sys: System, actions: seq<Action>, id: string)
    requires Safe(sys.book) && id in sys.book.orders && Terminal(sys.book.orders[id])
    requires forall k :: 0 <= k < |actions| ==> !Resets(actions[k]) && !Enters(Run(sys, actions[..k]), actions[k], id)
    ensures var r := Run(sys, actions);
            id in r.book.orders && r.book.orders[id] == sys.book.orders[id]
  {
    hide Safe, Step, Enters;
    if actions != [] {
      var n := |actions| - 1;
      var front := actions[..n];
      assert forall k :: 0 <= k < n ==> front[..k] == actions[..k];
      CompletedOrdersStay(sys, front, id);
      StepKeepsCompleted(Run(sys, front), actions[n], id);
    }
  }

  /** which no quiet run does. */
  lemma {:induction false} QuietRunsKeepCompleted(sys: System, actions: seq<Action>, id: string)
    requires Good(sys) && id in sys.book.orders && Terminal(sys.book.orders[id])
    requires QuietRun(sys, actions) && forall k :: 0 <= k < |actions| ==> !Resets(actions[k])
    ensures var r := Run(sys, actions);
            Good(r) && id in r.book.orders && r.book.orders[id] == sys.book.orders[id]
  {
    hide Good, Step, QuietRun, QuietAction, Safe, Terminal;
    GoodIsSafe(sys);
    if actions != [] {
      var n := |actions| - 1;
      QuietFront(sys, actions);
      QuietRunsKeepCompleted(sys, actions[..n], id);
      var before := Run(sys, actions[..n]);
      StepKeepsGood(before, actions[n]);
      GoodIsSafe(before);
      FreshEntersFree(before, actions[n]);
      StepKeepsCompleted(before, actions[n], id);
    }
  }

  lemma GoodIsSafe(sys: System)
    requires Good(sys)
    ensures Safe(sys.book) && IdsFresh(sys)
  {
    hide IdsFresh;
  }

  // ---------------------------------------------------------------- where the laws stop

  lemma RunAppend(sys: System, actions: seq<Action>, a: Action)
    requires Safe(sys.book)
    ensures Run(sys, actions + [a]) == Step(Run(sys, actions), a)
  {
    assert (actions + [a])[..|actions|] == actions;
  }

  lemma RunThree(sys: System, actions: seq<Action>, a: Action, b: Action, c: Action)
    requires Safe(sys.book)
    ensures Run(sys, actions + [a, b, c]) == Step(Step(Step(Run(sys, actions), a), b), c)
  {
    hide Safe, Step;
    RunAppend(sys, actions, a);
    RunAppend(sys, actions + [a], b);
    RunAppend(sys, actions + [a] + [b], c);
    assert actions + [a] + [b] + [c] == actions + [a, b, c];
  }

  /** Two opening orders delivered under the same id to a freshly started book. */
  lemma SameIdTwiceBreaksBooks(s: State, y: string, e: string, req: OrderReq, id: string)
    requires req == OrderReq(y, e, 2500.0, 5, Long, Open, LimitPrice)
    requires s.positions == Start(s, y, e).positions && s.orders == map[] && Books(s)
    ensures !Books(SendOrderWithId(SendOrderWithId(s, id, req), id, req))
  {
    hide LongKey, ShortKey, OneToOne, Numbered, Balanced, HeardOrders, HeardTrades;
    SendKeepsBooks(s, id, req);
    SendBreaksBooks(SendOrderWithId(s, id, req), id, req);
  }

  const ORDER := OrderReq("rb1610", "SHFE", 2500.0, 5, Long, Open, LimitPrice)

  /** A book of that symbol just started, with n ids drawn. */
  ghost predicate Fresh(s: State, n: int) {
    && Books(s) && s.orderId == n && s.orders == map[]
    && s.positions == Start(s, ORDER.symbol, ORDER.exchange).positions
  }

  lemma BeginFresh(sys: System)
    requires Safe(sys.book) && sys.draws == map[]
    ensures var r := Step(sys, Begin(ORDER.symbol, ORDER.exchange));
            Fresh(r.book, 0) && r.inbox == sys.inbox && r.draws == map[]
  {
    hide LongKey, ShortKey, OneToOne, Numbered, Balanced, HeardOrders, HeardTrades, Safe;
    StartBooks(sys.book, ORDER.symbol, ORDER.exchange);
  }

  lemma CountFresh(s: State, n: int)
    requires Fresh(s, n)
    ensures Fresh(CountOrder(s), n + 1)
  {
    hide LongKey, ShortKey, OneToOne, Numbered, Balanced, HeardOrders, HeardTrades, Safe;
    CountKeepsBooks(s);
  }

  lemma FreshIsSafe(s: State, n: int)
    requires Fresh(s, n)
    ensures Safe(s)
  {
    hide Safe;
  }

  /** A whole draw with nothing in between posts the next id. */
  lemma DrawPosts(sys: System, t: Thread, n: int)
    requires Fresh(sys.book, n) && sys.draws == map[] && t != Loop
    ensures Safe(sys.book)
    ensures var r := Step(Step(Step(sys, Count(t, ORDER)), Look(t)), Post(t));
            Fresh(r.book, n + 1) && r.inbox == sys.inbox + [(Text(n + 1), ORDER)] && r.draws == map[]
  {
    hide Fresh, Text, Safe;
    FreshIsSafe(sys.book, n);
    CountFresh(sys.book, n);
    assert sys.book.orderId == n by { FreshCounter(sys.book, n); }
  }

  lemma FreshCounter(s: State, n: int)
    requires Fresh(s, n)
    ensures s.orderId == n
  {
  }

  /** Two orders of one id waiting break the books of a freshly started one. */
  lemma TwinsBreakBooks(sys: System, n: int, id: string)
    requires Fresh(sys.book, n) && sys.draws == map[] && sys.inbox == [(id, ORDER), (id, ORDER)]
    ensures Safe(sys.book) && !Books(Step(Step(sys, Deliver), Deliver).book)
  {
    hide LongKey, ShortKey, OneToOne, Numbered, Balanced, HeardOrders, HeardTrades, Safe, SendOrderWithId, Start;
    FreshIsSafe(sys.book, n);
    SameIdTwiceBreaksBooks(sys.book, ORDER.symbol, ORDER.exchange, ORDER, id);
  }

  /** Restarting the book under a posted order makes the counter issue the same id again;
      the second order then overwrites the first and its frozen volume is lost. */
  lemma ResetUnderPostedOrderBreaksBooks() returns (actions: seq<Action>)
    ensures !Books(Run(BOOTED, actions).book)
  {
    hide Fresh, Text, Safe, Step, Run, Books;
    var begin, t := Begin(ORDER.symbol, ORDER.exchange), Rpc(0);
    var first := [] + [begin] + [Count(t, ORDER), Look(t), Post(t)];
    var second := first + [begin] + [Count(t, ORDER), Look(t), Post(t)];
    actions := second + [Deliver] + [Deliver];
    BootedSafe();
    RunNothing();
    RunAppend(BOOTED, [], begin);
    BeginFresh(Run(BOOTED, []));
    RunThree(BOOTED, [] + [begin], Count(t, ORDER), Look(t), Post(t));
    DrawPosts(Run(BOOTED, [] + [begin]), t, 0);
    RunAppend(BOOTED, first, begin);
    BeginFresh(Run(BOOTED, first));
    RunThree(BOOTED, first + [begin], Count(t, ORDER), Look(t), Post(t));
    DrawPosts(Run(BOOTED, first + [begin]), t, 0);
    RunAppend(BOOTED, second, Deliver);
    RunAppend(BOOTED, second + [Deliver], Deliver);
    TwinsBreakBooks(Run(BOOTED, second), 1, Text(1));
  }

  lemma BootedSafe()
    ensures Safe(BOOTED.book)
  {
    InitialSafe();
  }

  lemma RunNothing()
    requires Safe(BOOTED.book)
    ensures Run(BOOTED, []) == BOOTED
  {
  }

  /** Two threads whose draws overlap, no reset far and wide: both read the counter after both
      counted it up and post under one id. */
  lemma OverlappingDrawsBreakBooks() returns (actions: seq<Action>)
    ensures !Books(Run(BOOTED, actions).book)
    ensures forall k :: 1 <= k < |actions| ==> !Resets(actions[k])
  {
    hide Fresh, Text, Safe, Step, Run, Books;
    var begin, t, u := Begin(ORDER.symbol, ORDER.exchange), Rpc(0), Rpc(1);
    var started := [] + [begin];
    var drawn := started + [Count(t, ORDER), Count(u, ORDER), Look(t)] + [Look(u), Post(t), Post(u)];
    actions := drawn + [Deliver] + [Deliver];
    BootedSafe();
    RunNothing();
    RunAppend(BOOTED, [], begin);
    BeginFresh(Run(BOOTED, []));
    RunThree(BOOTED, started, Count(t, ORDER), Count(u, ORDER), Look(t));
    RunThree(BOOTED, started + [Count(t, ORDER), Count(u, ORDER), Look(t)], Look(u), Post(t), Post(u));
    BothRead(Run(BOOTED, started));
    RunAppend(BOOTED, drawn, Deliver);
    RunAppend(BOOTED, drawn + [Deliver], Deliver);
    TwinsBreakBooks(Run(BOOTED, drawn), 2, Text(2));
  }

  lemma BothRead(sys: System)
    requires Fresh(sys.book, 0) && sys.draws == map[] && sys.inbox == []
    ensures Safe(sys.book)
    ensures var (t, u) := (Rpc(0), Rpc(1));
            var mid := Step(Step(Step(sys, Count(t, ORDER)), Count(u, ORDER)), Look(t));
            var r := Step(Step(Step(mid, Look(u)), Post(t)), Post(u));
            Fresh(r.book, 2) && r.draws == map[] && r.inbox == [(Text(2), ORDER), (Text(2), ORDER)]
  {
    hide Fresh, Text, Safe;
    FreshIsSafe(sys.book, 0);
    CountFresh(sys.book, 0);
    CountFresh(CountOrder(sys.book), 1);
    FreshCounter(CountOrder(CountOrder(sys.book)), 2);
  }
}
