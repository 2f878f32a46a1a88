/** What an order meets at the exchange, in the terms of its request, the tick and the long and
    short entries: when it is taken, what cancels it, when and at what price it is filled. */
module BacktestOrders {
  import opened Lex
  import opened Decimal
  import opened Backtest
  import opened BacktestBooks
  import opened BacktestRuns

  // ---------------------------------------------------------------- the long and the short entry

  /** What the trades bought to open less what they sold to close, of the instrument. */
  function LongVolume(log: seq<Trade>, y: string, e: string): int {
    if log == [] then 0
    else
      var t := log[|log| - 1];
      LongVolume(log[..|log| - 1], y, e) +
      if LongKey(t.symbol, t.exchange) != LongKey(y, e) then 0
      else if t.offset == Open && (t.direction == Long || t.direction == Net) then t.volume
      else if t.offset != Open && t.direction == Short then -t.volume
      else 0
  }

  /** What they sold to open less what they bought to close. */
  function ShortVolume(log: seq<Trade>, y: string, e: string): int {
    if log == [] then 0
    else
      var t := log[|log| - 1];
      ShortVolume(log[..|log| - 1], y, e) +
      if ShortKey(t.symbol, t.exchange) != ShortKey(y, e) then 0
      else if t.offset == Open && t.direction == Short then t.volume
      else if t.offset != Open && (t.direction == Long || t.direction == Net) then -t.volume
      else 0
  }

  lemma {:induction false} NetVolumeBySide(log: seq<Trade>, y: string, e: string)
    requires forall t :: t in log ==> t.direction != UnknownDirection
    ensures NetVolume(log, LongKey(y, e)) == LongVolume(log, y, e)
    ensures NetVolume(log, ShortKey(y, e)) == ShortVolume(log, y, e)
  {
    hide LongKey, ShortKey;
    if log != [] {
      var t := log[|log| - 1];
      assert t in log;
      NetVolumeBySide(log[..|log| - 1], y, e);
      KeysApart(t.symbol, t.exchange, y, e);
      KeysApart(y, e, t.symbol, t.exchange);
    }
  }

  lemma HeardTradesKnown(s: State)
    requires Books(s)
    ensures forall t :: t in HeardTrades(s.events) ==> t.direction != UnknownDirection
  {
    hide Safe, Balanced, Numbered, HeardTrades, HeardOrders;
    var log := HeardTrades(s.events);
    forall t | t in log ensures t.direction != UnknownDirection {
      var i :| 0 <= i < |log| && log[i] == t;
      assert Fills(log[i], s.orders[log[i].orderId]);
    }
  }

  /** The long entry holds what was bought to open and not yet sold to close, the short entry what
      was sold to open and not yet bought to close. */
  lemma EntriesAddUp(s: State, y: string, e: string)
    requires Books(s) && LongKey(y, e) in s.positions
    ensures s.positions[LongKey(y, e)].position == LongVolume(HeardTrades(s.events), y, e)
    ensures ShortKey(y, e) in s.positions && s.positions[ShortKey(y, e)].position == ShortVolume(HeardTrades(s.events), y, e)
  {
    hide LongKey, ShortKey, LongVolume, ShortVolume, NetVolume, HeardTrades, HeardOrders;
    HeardTradesKnown(s);
    NetVolumeBySide(HeardTrades(s.events), y, e);
    PositionConserved(s, LongKey(y, e));
    PositionConserved(s, ShortKey(y, e));
  }

  /** Live buying opens are frozen in the long entry, live selling ones in the short entry. */
  lemma HoldsBySide(o: Order, y: string, e: string)
    requires o.direction != UnknownDirection
    ensures Holds(o, LongKey(y, e)) ==
            if && o.status == NotTraded && o.offset == Open && (o.direction == Long || o.direction == Net)
               && LongKey(o.symbol, o.exchange) == LongKey(y, e)
            then o.total else 0
    ensures Holds(o, ShortKey(y, e)) ==
            if && o.status == NotTraded && o.offset == Open && o.direction == Short
               && ShortKey(o.symbol, o.exchange) == ShortKey(y, e)
            then o.total else 0
  {
    hide LongKey, ShortKey;
    KeysApart(o.symbol, o.exchange, y, e);
    KeysApart(y, e, o.symbol, o.exchange);
  }

  // ---------------------------------------------------------------- taking an order

  /** What an order must be, whatever the entries hold. */
  predicate Proper(req: OrderReq) {
    req.priceType == LimitPrice && 1 <= req.volume <= 500 && (req.offset == Open || req.offset == Close)
  }

  /** The order is entered as asked for and announced; it stays live exactly if it is proper, the book
      is of its instrument, and a close finds its volume: a sell in the long entry, a buy in the
      short one. */
  lemma SentOrder(s: State, id: string, req: OrderReq)
    requires Safe(s)
    ensures var r := SendOrderWithId(s, id, req);
            var long, short := LongKey(req.symbol, req.exchange), ShortKey(req.symbol, req.exchange);
            && id in r.orders
            && r.orders[id] == Order(req.symbol, req.exchange, id, req.direction, req.offset, r.orders[id].status,
                                     req.price, req.volume, 0)
            && (r.orders[id].status == NotTraded || r.orders[id].status == Cancelled)
            && (r.orders[id].status == NotTraded <==>
                  && long in s.positions && short in s.positions && Proper(req)
                  && (req.offset == Close && req.direction == Short ==> s.positions[long].position >= req.volume)
                  && (req.offset == Close && (req.direction == Long || req.direction == Net) ==>
                        s.positions[short].position >= req.volume))
            && r.events == s.events + [GotOrder(r.orders[id])]
            && r.trades == s.trades
            && (forall x :: x in s.orders && x != id ==> x in r.orders && r.orders[x] == s.orders[x])
  {
    hide LongKey, ShortKey;
  }

  /** In terms of the trades a client has heard of: a close is taken exactly if they left so much
      open on the other side; an open always is. */
  lemma TakenIff(s: State, id: string, req: OrderReq)
    requires Books(s) && LongKey(req.symbol, req.exchange) in s.positions && Proper(req) && req.direction != UnknownDirection
    ensures var log := HeardTrades(s.events);
            var r := SendOrderWithId(s, id, req);
            && id in r.orders
            && (r.orders[id].status == NotTraded <==>
                || req.offset == Open
                || (req.direction == Short && LongVolume(log, req.symbol, req.exchange) >= req.volume)
                || (req.direction != Short && ShortVolume(log, req.symbol, req.exchange) >= req.volume))
  {
    hide Books, LongKey, ShortKey, LongVolume, ShortVolume, HeardTrades, SendOrderWithId;
    EntriesAddUp(s, req.symbol, req.exchange);
    BooksSafe(s);
    SentOrder(s, id, req);
  }

  lemma BooksSafe(s: State)
    requires Books(s)
    ensures Safe(s)
  {
  }

  /** The check on entry and the one at the fill agree: a close that was taken and meets its price
      before anything else moves the entry is filled, never withdrawn. */
  lemma TakenCloseIsCovered(s: State, id: string, req: OrderReq, tick: Tick)
    requires Safe(s) && req.offset == Close
    requires var r := SendOrderWithId(s, id, req);
             && id in r.orders && Meets(r.orders[id], tick)
             && forall x :: x in r.orders && x != id ==>
                  !HitsEntry(r, x, tick, MovedKey(req.symbol, req.exchange, req.direction, req.offset))
    ensures var r := OnGotTick(SendOrderWithId(s, id, req), tick);
            id in r.orders && r.orders[id].status == AllTraded
  {
    hide Safe, TickOrders, HeldAfter, SortedKeys, Less, OnGotTick, LongKey, ShortKey;
    var r := SendOrderWithId(s, id, req);
    var key := MovedKey(req.symbol, req.exchange, req.direction, req.offset);
    CloseFindsVolume(s, id, req);
    var ids := SortedKeys(r.orders.Keys);
    AscendingDistinct(ids);
    var i :| 0 <= i < |ids| && ids[i] == id;
    forall x | x in ids[..i] ensures !HitsEntry(r, x, tick, key) {
      var m :| 0 <= m < i && ids[..i][m] == x;
      assert ids[m] in ids && ids[m] != ids[i];
    }
    NothingHitsEntry(r, ids[..i], tick, key);
    GotTickDecidesCloses(r, tick, key, i);
  }

  lemma CloseFindsVolume(s: State, id: string, req: OrderReq)
    requires Safe(s) && req.offset == Close && req.direction != UnknownDirection
    requires SendOrderWithId(s, id, req).orders[id].status == NotTraded
    ensures var r := SendOrderWithId(s, id, req);
            var key := MovedKey(req.symbol, req.exchange, req.direction, req.offset);
            key in r.positions && r.positions[key].position >= req.volume == r.orders[id].total
            && r.orders[id].offset == Close
  {
    hide LongKey, ShortKey;
  }

  /** Numbering starts over with the book: the first id drawn after a start or a stop is 1, and each
      draw moves on by one. */
  lemma IdsStartOver(s: State, y: string, e: string, draws: nat)
    requires draws > 0
    ensures CurrentId(Drawn(Start(s, y, e), draws)) == Text(draws)
    ensures CurrentId(Drawn(Stop(s), draws)) == Text(draws)
  {
    hide LongKey, ShortKey, Text;
    DrawnId(Start(s, y, e), draws);
    DrawnId(Stop(s), draws);
  }

  /** The book after some draws. */
  function Drawn(s: State, draws: nat): State {
    if draws == 0 then s else CountOrder(Drawn(s, draws - 1))
  }

  lemma {:induction false} DrawnId(s: State, draws: nat)
    ensures Drawn(s, draws).orderId == s.orderId + draws
  {
    if draws > 0 {
      DrawnId(s, draws - 1);
    }
  }

  // ---------------------------------------------------------------- cancelling one

  /** A live order is cancelled, whatever its entry holds by now, and announced; of an open its volume
      is no longer frozen. Any other order, and any other id, is left as it is. */
  lemma CancelledOrder(s: State, id: string)
    requires Safe(s)
    ensures var r := CancelOrder(s, id);
            if id in s.orders && s.orders[id].status == NotTraded then
              var o := s.orders[id].(status := Cancelled);
              && r.orders == s.orders[id := o] && r.events == s.events + [GotOrder(o)]
              && r.trades == s.trades && r.orderId == s.orderId && r.tradeId == s.tradeId
              && r.positions.Keys == s.positions.Keys
              && forall k :: k in s.positions ==>
                   var p := s.positions[k]; r.positions[k] == p.(frozen := p.frozen - Thawed(o, k))
            else
              r == s
  {
    hide LongKey, ShortKey;
  }

  /** What a cancelled order had frozen in an entry. */
  function Thawed(o: Order, key: string): int {
    if o.offset == Open && (o.direction == Long || o.direction == Net) && key == LongKey(o.symbol, o.exchange) then o.total
    else if o.offset == Open && o.direction == Short && key == ShortKey(o.symbol, o.exchange) then o.total
    else 0
  }

  // ---------------------------------------------------------------- filling one

  /** A live order meets its limit at a tick of its instrument: a buy at no more, a sell at no less. */
  predicate Meets(o: Order, tick: Tick) {
    && o.status == NotTraded && o.symbol == tick.symbol && o.exchange == tick.exchange
    && (o.offset == Open || o.offset == Close)
    && match o.direction
       case Long => tick.lastPrice <= o.price
       case Net => tick.lastPrice <= o.price
       case Short => tick.lastPrice >= o.price
       case UnknownDirection => false
  }

  /** What one tick makes of every order. */
  lemma TickedOrder(s: State, tick: Tick, id: string)
    requires Safe(s) && id in s.orders
    ensures var o := s.orders[id];
            var filled, withdrawn := o.(status := AllTraded, traded := o.total), o.(status := Cancelled);
            var r := OnGotTick(s, tick).orders;
            && id in r
            && (!Meets(o, tick) ==> r[id] == o)
            && (Meets(o, tick) && o.offset == Open ==> r[id] == filled)
            && (Meets(o, tick) && o.offset == Close ==> r[id] == filled || r[id] == withdrawn)
  {
    hide Safe, TickOrders, SortedKeys, Less;
    var ids := SortedKeys(s.orders.Keys);
    AscendingDistinct(ids);
    TickOrdersOutcome(s, ids, tick);
    assert Hit(s.orders[id], tick) <==> Meets(s.orders[id], tick);
  }

  /** The trade of an order at a tick: the order's instrument, side and volume, the tick's price. */
  predicate TradedAt(t: Trade, orders: map<string, Order>, tick: Tick) {
    exists id :: id in orders && Meets(orders[id], tick) && TradeOf(t, orders[id], tick)
  }

  predicate TradeOf(t: Trade, o: Order, tick: Tick) {
    && t.symbol == tick.symbol && t.exchange == tick.exchange && t.price == tick.lastPrice
    && t.orderId == o.id && t.direction == o.direction && t.offset == o.offset && t.volume == o.total
  }

  /** One visit announces no trade, or the visited order's. */
  lemma VisitTrades(s: State, id: string, tick: Tick)
    requires Safe(s)
    ensures var r, was := TickOrder(s, id, tick), HeardTrades(s.events);
            || HeardTrades(r.events) == was
            || (&& id in s.orders && Meets(s.orders[id], tick)
                && |HeardTrades(r.events)| == |was| + 1 && HeardTrades(r.events)[..|was|] == was
                && TradeOf(HeardTrades(r.events)[|was|], s.orders[id], tick))
  {
    hide LongKey, ShortKey, Safe, HeardTrades, OpenPosition, ClosePosition, MovedKey, Text;
    if id in s.orders && Hit(s.orders[id], tick) {
      var o := s.orders[id];
      if Outgrown(s, id) {
        Heard1(s.events, GotOrder(Withdraw(s, id).orders[id]));
      } else {
        Heard2(s.events, TradeFor(o, Text(s.tradeId + 1), tick.lastPrice), o.(traded := o.total, status := AllTraded));
      }
    }
  }

  /** And that trade comes right before the order's own new state; a withdrawn order has no trade. */
  lemma VisitSignals(s: State, id: string, tick: Tick)
    requires Safe(s)
    ensures var r := TickOrder(s, id, tick);
            if id !in s.orders || !Meets(s.orders[id], tick) then
              r == s
            else
              && id in r.orders
              && if r.orders[id].status == Cancelled then
                   r.events == s.events + [GotOrder(r.orders[id])]
                 else
                   exists t :: TradeOf(t, s.orders[id], tick) && r.trades == s.trades[t.tradeId := t]
                               && r.events == s.events + [GotTrade(t), GotOrder(r.orders[id])]
  {
    hide LongKey, ShortKey, Safe, OpenPosition, ClosePosition, MovedKey, Text;
    if id in s.orders && Hit(s.orders[id], tick) && !Outgrown(s, id) {
      var t := TradeFor(s.orders[id], Text(s.tradeId + 1), tick.lastPrice);
      var done := TickOrder(s, id, tick).orders[id];
      assert TradeOf(t, s.orders[id], tick);
      assert s.events + [GotTrade(t)] + [GotOrder(done)] == s.events + [GotTrade(t), GotOrder(done)];
    }
  }

  /** Whatever the visiting sequence: every trade announced by a pass is at the tick's price and
      instrument, and is one of an order that met its limit before the pass. */
  lemma {:induction false} PassTrades(s: State, ids: seq<string>, tick: Tick)
    requires Safe(s) && forall i, j :: 0 <= i < j < |ids| ==> ids[i] != ids[j]
    ensures var was, log := HeardTrades(s.events), HeardTrades(TickOrders(s, ids, tick).events);
            && was <= log
            && forall i :: |was| <= i < |log| ==> TradedAt(log[i], s.orders, tick)
  {
    hide Safe, TickOrder, TickOutcome, HeardTrades, Meets, TradeOf;
    if ids != [] {
      var front, id := ids[..|ids| - 1], ids[|ids| - 1];
      var before := TickOrders(s, front, tick);
      PassTrades(s, front, tick);
      TickOrdersOutcome(s, front, tick);
      VisitTrades(before, id, tick);
      assert id !in front;
    }
  }

  /** The same of the tick itself. */
  lemma TickTrades(s: State, tick: Tick)
    requires Safe(s)
    ensures var was, log := HeardTrades(s.events), HeardTrades(OnGotTick(s, tick).events);
            && was <= log
            && forall i :: |was| <= i < |log| ==> TradedAt(log[i], s.orders, tick)
  {
    hide Safe, TickOrders, HeardTrades, TradedAt, SortedKeys, Less;
    AscendingDistinct(SortedKeys(s.orders.Keys));
    PassTrades(s, SortedKeys(s.orders.Keys), tick);
  }

  /** A trade at the price and instrument of one of the ticks of a run. */
  predicate Quoted(t: Trade, actions: seq<Action>) {
    exists a :: a in actions && a.Quote? && QuotedBy(t, a.tick)
  }

  predicate QuotedBy(t: Trade, tick: Tick) {
    t.symbol == tick.symbol && t.exchange == tick.exchange && t.price == tick.lastPrice
  }

  /** An action other than a tick announces no trade. */
  lemma OnlyTicksTrade(sys: System, a: Action)
    requires Safe(sys.book) && !a.Quote?
    ensures var log := HeardTrades(Step(sys, a).book.events); log == HeardTrades(sys.book.events) || log == []
  {
    hide LongKey, ShortKey, Safe, HeardTrades, TickOrders, SendOrderWithId, CancelOrder, Text;
    match a
    case Begin(y, e) => Heard1(sys.book.events, WillBegin(y, e));
    case End => Heard1(sys.book.events, Stopped);
    case Count(_, _) =>
    case Look(t) => if Counting(sys, t) { SendAnnounces(sys.book, CurrentId(sys.book), sys.draws[t].req); }
    case Post(_) =>
    case Deliver => if sys.inbox != [] { SendAnnounces(sys.book, sys.inbox[0].0, sys.inbox[0].1); }
    case Cancel(id) => CancelAnnounces(sys.book, id);
    case Quote(_) =>
  }

  lemma SendAnnounces(s: State, id: string, req: OrderReq)
    requires Safe(s)
    ensures HeardTrades(SendOrderWithId(s, id, req).events) == HeardTrades(s.events)
  {
    hide HeardTrades, Safe, SendOrderWithId, LongKey, ShortKey;
    SentOrder(s, id, req);
    Heard1(s.events, GotOrder(SendOrderWithId(s, id, req).orders[id]));
  }

  lemma CancelAnnounces(s: State, id: string)
    requires Safe(s)
    ensures HeardTrades(CancelOrder(s, id).events) == HeardTrades(s.events)
  {
    hide HeardTrades, Safe, LongKey, ShortKey;
    if id in s.orders {
      Heard1(s.events, GotOrder(s.orders[id].(status := Cancelled)));
    }
  }

  /** Over any run, whatever its order ids: every trade was announced at the last price of a tick of
      its instrument. */
  lemma {:induction false} TradesQuoted(actions: seq<Action>)
    ensures forall t :: t in HeardTrades(Run(BOOTED, actions).book.events) ==> Quoted(t, actions)
  {
    hide Step, HeardTrades, Safe, Quoted;
    InitialSafe();
    if actions == [] {
      NothingHeard();
    } else {
      var front, a := actions[..|actions| - 1], actions[|actions| - 1];
      var sys := Run(BOOTED, front);
      var was, log := HeardTrades(sys.book.events), HeardTrades(Run(BOOTED, actions).book.events);
      TradesQuoted(front);
      StepTrades(sys, a);
      forall t | t in log ensures Quoted(t, actions) {
        if t in was {
          QuotedStill(t, actions);
        } else {
          QuotedNow(t, actions);
        }
      }
    }
  }

  lemma StepTrades(sys: System, a: Action)
    requires Safe(sys.book)
    ensures forall t :: t in HeardTrades(Step(sys, a).book.events) && t !in HeardTrades(sys.book.events) ==>
              a.Quote? && QuotedBy(t, a.tick)
  {
    hide HeardTrades, Safe, TickOrders, SendOrderWithId, CancelOrder, LongKey, ShortKey, Meets, OnGotTick;
    if a.Quote? {
      TickTrades(sys.book, a.tick);
      var was, log := HeardTrades(sys.book.events), HeardTrades(OnGotTick(sys.book, a.tick).events);
      forall t | t in log && t !in was ensures QuotedBy(t, a.tick) {
        var i := NewInLog(was, log, t);
        assert TradedAt(log[i], sys.book.orders, a.tick);
      }
    } else {
      OnlyTicksTrade(sys, a);
    }
  }

  lemma NewInLog(was: seq<Trade>, log: seq<Trade>, t: Trade) returns (i: nat)
    requires was <= log && t in log && t !in was
    ensures |was| <= i < |log| && log[i] == t
  {
    i :| 0 <= i < |log| && log[i] == t;
    assert forall j :: 0 <= j < |was| ==> log[j] in was;
  }

  lemma NothingHeard()
    ensures HeardTrades(Run(BOOTED, []).book.events) == []
  {
  }

  lemma QuotedStill(t: Trade, actions: seq<Action>)
    requires actions != [] && Quoted(t, actions[..|actions| - 1])
    ensures Quoted(t, actions)
  {
    var a :| a in actions[..|actions| - 1] && a.Quote? && QuotedBy(t, a.tick);
    assert a in actions;
  }

  lemma QuotedNow(t: Trade, actions: seq<Action>)
    requires actions != [] && actions[|actions| - 1].Quote? && QuotedBy(t, actions[|actions| - 1].tick)
    ensures Quoted(t, actions)
  {
    assert actions[|actions| - 1] in actions;
  }

  // ---------------------------------------------------------------- which entries a book has

  datatype Begun = Nothing | Instrument(symbol: string, exchange: string)

  /** What was last announced to begin, and not stopped since. */
  function BegunBy(events: seq<Event>): Begun {
    if events == [] then Nothing
    else
      match events[|events| - 1]
      case WillBegin(y, e) => Instrument(y, e)
      case Stopped => Nothing
      case _ => BegunBy(events[..|events| - 1])
  }

  predicate Names(p: Position, y: string, e: string, d: Direction) {
    p.symbol == y && p.exchange == e && p.direction == d && p.ydPosition == 0
  }

  /** The book holds a long and a short entry of the instrument begun, each under its own key, and
      no other; before a start and after a stop it holds none. */
  predicate EntriesNamed(s: State) {
    match BegunBy(s.events)
    case Nothing => s.positions == map[]
    case Instrument(y, e) =>
      && s.positions.Keys == {LongKey(y, e), ShortKey(y, e)}
      && Names(s.positions[LongKey(y, e)], y, e, Long)
      && Names(s.positions[ShortKey(y, e)], y, e, Short)
  }

  /** No entry comes, goes or changes its name. */
  predicate SameEntries(s: State, r: State) {
    && r.positions.Keys == s.positions.Keys
    && (forall k :: k in s.positions ==>
          var p, q := s.positions[k], r.positions[k];
          q.symbol == p.symbol && q.exchange == p.exchange && q.direction == p.direction && q.ydPosition == p.ydPosition)
    && BegunBy(r.events) == BegunBy(s.events)
  }

  lemma BegunAppend(events: seq<Event>, e: Event)
    ensures BegunBy(events + [e]) ==
            match e case WillBegin(y, x) => Instrument(y, x) case Stopped => Nothing case _ => BegunBy(events)
  {
    assert (events + [e])[..|events|] == events;
  }

  lemma SameEntriesNamed(s: State, r: State)
    requires EntriesNamed(s) && SameEntries(s, r)
    ensures EntriesNamed(r)
  {
    hide LongKey, ShortKey, BegunBy;
  }

  lemma SendSameEntries(s: State, id: string, req: OrderReq)
    requires Safe(s)
    ensures SameEntries(s, SendOrderWithId(s, id, req))
  {
    hide LongKey, ShortKey, BegunBy;
    BegunAppend(s.events, GotOrder(SendOrderWithId(s, id, req).orders[id]));
  }

  lemma CancelSameEntries(s: State, id: string)
    requires Safe(s)
    ensures SameEntries(s, CancelOrder(s, id))
  {
    hide LongKey, ShortKey, BegunBy;
    if id in s.orders {
      BegunAppend(s.events, GotOrder(s.orders[id].(status := Cancelled)));
    }
  }

  lemma VisitSameEntries(s: State, id: string, tick: Tick)
    requires Safe(s)
    ensures SameEntries(s, TickOrder(s, id, tick))
  {
    hide LongKey, ShortKey, BegunBy, Safe, OpenPrice, ClosePrice, Text;
    if id in s.orders && Hit(s.orders[id], tick) {
      var o := s.orders[id];
      LiveOrderBacked(s, id);
      var trade := GotTrade(TradeFor(o, Text(s.tradeId + 1), tick.lastPrice));
      BegunAppend(s.events, GotOrder(o.(status := Cancelled)));
      BegunAppend(s.events, trade);
      BegunAppend(s.events + [trade], GotOrder(o.(traded := o.total, status := AllTraded)));
    }
  }

  lemma {:induction false} PassSameEntries(s: State, ids: seq<string>, tick: Tick)
    requires Safe(s)
    ensures SameEntries(s, TickOrders(s, ids, tick))
  {
    hide Safe, TickOrder, BegunBy;
    if ids != [] {
      PassSameEntries(s, ids[..|ids| - 1], tick);
      VisitSameEntries(TickOrders(s, ids[..|ids| - 1], tick), ids[|ids| - 1], tick);
    }
  }

  lemma StartEntriesNamed(s: State, y: string, e: string)
    ensures EntriesNamed(Start(s, y, e))
  {
    hide BegunBy, LongKey, ShortKey;
    BegunAppend(s.events, WillBegin(y, e));
    KeysApart(y, e, y, e);
  }

  lemma StopEntriesNamed(s: State)
    ensures EntriesNamed(Stop(s))
  {
    hide BegunBy;
    BegunAppend(s.events, Stopped);
  }

  lemma StepEntriesNamed(sys: System, a: Action)
    requires Safe(sys.book) && EntriesNamed(sys.book)
    ensures EntriesNamed(Step(sys, a).book)
  {
    hide Safe, EntriesNamed, SendOrderWithId, CancelOrder, TickOrders, SameEntries, SortedKeys, Text, Start, Stop;
    var s, r := sys.book, Step(sys, a).book;
    match a
    case Begin(y, e) => StartEntriesNamed(s, y, e);
    case End => StopEntriesNamed(s);
    case Count(_, _) => CountSameEntries(s); SameEntriesNamed(s, CountOrder(s));
    case Look(t) =>
      if Counting(sys, t) {
        SendSameEntries(s, CurrentId(s), sys.draws[t].req);
        SameEntriesNamed(s, SendOrderWithId(s, CurrentId(s), sys.draws[t].req));
      }
    case Post(_) =>
    case Deliver =>
      if sys.inbox != [] {
        SendSameEntries(s, sys.inbox[0].0, sys.inbox[0].1);
        SameEntriesNamed(s, SendOrderWithId(s, sys.inbox[0].0, sys.inbox[0].1));
      }
    case Cancel(id) => CancelSameEntries(s, id); SameEntriesNamed(s, CancelOrder(s, id));
    case Quote(tick) =>
      PassSameEntries(s, SortedKeys(s.orders.Keys), tick);
      SameEntriesNamed(s, OnGotTick(s, tick));
  }

  lemma CountSameEntries(s: State)
    requires Safe(s)
    ensures SameEntries(s, CountOrder(s))
  {
    hide BegunBy;
  }

  /** Over any run the entries are those of the instrument last announced to begin. */
  lemma {:induction false} EntriesOverRuns(actions: seq<Action>)
    ensures EntriesNamed(Run(BOOTED, actions).book)
  {
    hide Step, Safe, EntriesNamed;
    InitialSafe();
    if actions == [] {
      NoEntries();
    } else {
      var front := actions[..|actions| - 1];
      EntriesOverRuns(front);
      StepEntriesNamed(Run(BOOTED, front), actions[|actions| - 1]);
    }
  }

  lemma NoEntries()
    ensures EntriesNamed(Run(BOOTED, []).book)
  {
  }

  // ---------------------------------------------------------------- the loop's inbox

  /** The orders the threads of a run posted to the loop, in order. */
  function PostedBy(actions: seq<Action>): seq<(string, OrderReq)>
  {
    if actions == [] then []
    else
      var front, a := actions[..|actions| - 1], actions[|actions| - 1];
      var sys := Run(BOOTED, front);
      PostedBy(front) + if a.Post? && Posting(sys, a.thread) then [(sys.draws[a.thread].id, sys.draws[a.thread].req)] else []
  }

  /** How many of them the loop has taken. */
  function DeliveredBy(actions: seq<Action>): nat
  {
    if actions == [] then 0
    else
      var front, a := actions[..|actions| - 1], actions[|actions| - 1];
      DeliveredBy(front) + if a.Deliver? && !Busy(Run(BOOTED, front)) && DeliveredBy(front) < |PostedBy(front)| then 1 else 0
  }

  /** The loop enters the orders in the order they were posted, each under the id drawn for it. */
  lemma {:induction false} DeliveredInOrder(actions: seq<Action>)
    ensures var posted, n := PostedBy(actions), DeliveredBy(actions);
            var sys := Run(BOOTED, actions);
            && n <= |posted| && sys.inbox == posted[n..]
            && (n < |posted| && !Busy(sys) ==>
                  Step(sys, Deliver).book == SendOrderWithId(sys.book, posted[n].0, posted[n].1))
  {
    hide Safe, SendOrderWithId, Step;
    InitialSafe();
    if actions == [] {
      NothingPosted();
    } else {
      DeliveredInOrder(actions[..|actions| - 1]);
      InboxAfter(Run(BOOTED, actions[..|actions| - 1]), actions[|actions| - 1]);
    }
    DeliverEnters(Run(BOOTED, actions));
  }

  lemma NothingPosted()
    ensures Run(BOOTED, []).inbox == []
  {
  }

  lemma InboxAfter(sys: System, a: Action)
    requires Safe(sys.book)
    ensures Step(sys, a).inbox ==
            if a.Post? && Posting(sys, a.thread) then sys.inbox + [(sys.draws[a.thread].id, sys.draws[a.thread].req)]
            else if a.Deliver? && !Busy(sys) && sys.inbox != [] then sys.inbox[1..]
            else sys.inbox
  {
    hide Safe, SendOrderWithId, TickOrders, CancelOrder, LongKey, ShortKey, Text, Start, Stop, SortedKeys;
  }

  lemma DeliverEnters(sys: System)
    requires Safe(sys.book)
    ensures sys.inbox != [] && !Busy(sys) ==>
              Step(sys, Deliver).book == SendOrderWithId(sys.book, sys.inbox[0].0, sys.inbox[0].1)
  {
    hide Safe, SendOrderWithId;
  }
}
