/** Conservation laws of the backtest book. The reference for all of them is the
    signal stream: the orders a client last heard of and the trades it was told
    about since the book was last reset. */
module BacktestBooks {
  import opened Decimal
  import opened Backtest

  // ---------------------------------------------------------------- what a client knows

  function OrdersAfter(before: map<string, Order>, e: Event): map<string, Order> {
    match e
    case WillBegin(_, _) => map[]
    case Stopped => map[]
    case GotOrder(o) => before[o.id := o]
    case GotTrade(_) => before
  }

  function TradesAfter(before: seq<Trade>, e: Event): seq<Trade> {
    match e
    case WillBegin(_, _) => []
    case Stopped => []
    case GotOrder(_) => before
    case GotTrade(t) => before + [t]
  }

  /** The orders as a client that only listens to the signals would record them. */
  function HeardOrders(events: seq<Event>): map<string, Order> {
    if events == [] then map[] else OrdersAfter(HeardOrders(events[..|events| - 1]), events[|events| - 1])
  }

  /** The trades announced since the book was last reset, oldest first. */
  function HeardTrades(events: seq<Event>): seq<Trade> {
    if events == [] then [] else TradesAfter(HeardTrades(events[..|events| - 1]), events[|events| - 1])
  }

  lemma Heard1(events: seq<Event>, e: Event)
    ensures HeardOrders(events + [e]) == OrdersAfter(HeardOrders(events), e)
    ensures HeardTrades(events + [e]) == TradesAfter(HeardTrades(events), e)
  {
    assert (events + [e])[..|events|] == events;
  }

  lemma Heard2(events: seq<Event>, t: Trade, o: Order)
    ensures HeardOrders(events + [GotTrade(t)] + [GotOrder(o)]) == HeardOrders(events)[o.id := o]
    ensures HeardTrades(events + [GotTrade(t)] + [GotOrder(o)]) == HeardTrades(events) + [t]
  {
    Heard1(events, GotTrade(t));
    Heard1(events + [GotTrade(t)], GotOrder(o));
  }

  // ---------------------------------------------------------------- sums over the trade log

  /** Signed volume by which a trade moves the position entry `key`. */
  function Signed(t: Trade, key: string): int {
    if MovedKey(t.symbol, t.exchange, t.direction, t.offset) != key then 0
    else if t.offset == Open then t.volume
    else -t.volume
  }

  function NetVolume(log: seq<Trade>, key: string): int {
    if log == [] then 0 else NetVolume(log[..|log| - 1], key) + Signed(log[|log| - 1], key)
  }

  /** Signed volume times price. */
  function Notional(t: Trade, key: string): real {
    Signed(t, key) as real * t.price
  }

  function NetNotional(log: seq<Trade>, key: string): real {
    if log == [] then 0.0
    else NetNotional(log[..|log| - 1], key) + Notional(log[|log| - 1], key)
  }

  /** How much of the log's first n trades had passed when the entry `key` was last flat. */
  function FlatBefore(log: seq<Trade>, key: string, n: nat): (m: nat)
    requires n <= |log|
    ensures m <= n && NetVolume(log[..m], key) == 0
    ensures forall i :: m < i <= n ==> NetVolume(log[..i], key) != 0
  {
    hide Signed;
    if n == 0 || NetVolume(log[..n], key) == 0 then n else FlatBefore(log, key, n - 1)
  }

  function LastFlat(log: seq<Trade>, key: string): (m: nat)
    ensures m <= |log| && NetVolume(log[..m], key) == 0
    ensures forall i :: m < i <= |log| ==> NetVolume(log[..i], key) != 0
  {
    FlatBefore(log, key, |log|)
  }

  lemma {:induction false} FlatBeforeAgrees(log: seq<Trade>, t: Trade, key: string, n: nat)
    requires n <= |log|
    ensures FlatBefore(log + [t], key, n) == FlatBefore(log, key, n)
  {
    assert (log + [t])[..n] == log[..n];
    if n > 0 { FlatBeforeAgrees(log, t, key, n - 1); }
  }

  lemma Appended(log: seq<Trade>, t: Trade, key: string)
    ensures NetVolume(log + [t], key) == NetVolume(log, key) + Signed(t, key)
    ensures NetNotional(log + [t], key) == NetNotional(log, key) + Notional(t, key)
  {
    hide Signed, Notional;
    assert (log + [t])[..|log|] == log;
  }

  lemma LastFlatAppended(log: seq<Trade>, t: Trade, key: string)
    ensures LastFlat(log + [t], key) == if NetVolume(log + [t], key) == 0 then |log| + 1 else LastFlat(log, key)
  {
    assert (log + [t])[..|log| + 1] == log + [t];
    FlatBeforeAgrees(log, t, key, |log|);
  }

  /** Notional of the trades since the entry was last flat. */
  function OpenNotional(log: seq<Trade>, key: string): real {
    NetNotional(log[LastFlat(log, key)..], key)
  }

  lemma OpenNotionalAppended(log: seq<Trade>, t: Trade, key: string)
    ensures OpenNotional(log + [t], key) ==
            if NetVolume(log + [t], key) == 0 then 0.0 else OpenNotional(log, key) + Notional(t, key)
  {
    hide Signed, Notional, LastFlat;
    LastFlatAppended(log, t, key);
    var n := LastFlat(log, key);
    assert (log + [t])[n..] == log[n..] + [t];
    Appended(log[n..], t, key);
    assert (log + [t])[|log| + 1..] == [];
  }

  lemma FlatHasNoNotional(log: seq<Trade>, key: string)
    requires NetVolume(log, key) == 0
    ensures OpenNotional(log, key) == 0.0
  {
    hide Signed;
    assert LastFlat(log, key) == |log| by { assert log[..|log|] == log; }
    assert log[|log|..] == [];
  }

  // ---------------------------------------------------------------- sums over the live orders

  /** Volume an order keeps frozen in the position entry `key`. */
  function Holds(o: Order, key: string): int {
    if && o.status == NotTraded && Freezes(o.direction, o.offset)
       && MovedKey(o.symbol, o.exchange, o.direction, o.offset) == key
    then o.total else 0
  }

  ghost function HeldBy(orders: map<string, Order>, ids: set<string>, key: string): int
    requires ids <= orders.Keys
  {
    if ids == {} then 0
    else
      var id :| id in ids;
      Holds(orders[id], key) + HeldBy(orders, ids - {id}, key)
  }

  /** Total volume the live orders keep frozen in the position entry `key`. */
  ghost function Held(orders: map<string, Order>, key: string): int {
    HeldBy(orders, orders.Keys, key)
  }

  lemma {:induction false} HeldByRemove(orders: map<string, Order>, ids: set<string>, id: string, key: string)
    requires ids <= orders.Keys && id in ids
    ensures HeldBy(orders, ids, key) == Holds(orders[id], key) + HeldBy(orders, ids - {id}, key)
    decreases |ids|
  {
    var x :| x in ids && HeldBy(orders, ids, key) == Holds(orders[x], key) + HeldBy(orders, ids - {x}, key);
    if x != id {
      HeldByRemove(orders, ids - {x}, id, key);
      HeldByRemove(orders, ids - {id}, x, key);
      assert ids - {x} - {id} == ids - {id} - {x};
    }
  }

  lemma {:induction false} HeldByAgree(a: map<string, Order>, b: map<string, Order>, ids: set<string>, key: string)
    requires ids <= a.Keys && ids <= b.Keys
    requires forall id :: id in ids ==> Holds(a[id], key) == Holds(b[id], key)
    ensures HeldBy(a, ids, key) == HeldBy(b, ids, key)
    decreases |ids|
  {
    if ids != {} {
      var id :| id in ids;
      HeldByRemove(a, ids, id, key);
      HeldByRemove(b, ids, id, key);
      HeldByAgree(a, b, ids - {id}, key);
    }
  }

  lemma HeldUpdate(orders: map<string, Order>, id: string, o: Order, key: string)
    ensures Held(orders[id := o], key) ==
            Held(orders, key) - (if id in orders then Holds(orders[id], key) else 0) + Holds(o, key)
  {
    var after := orders[id := o];
    HeldByRemove(after, after.Keys, id, key);
    var others := orders.Keys - {id};
    assert after.Keys - {id} == others;
    HeldByAgree(orders, after, others, key);
    if id in orders {
      HeldByRemove(orders, orders.Keys, id, key);
    } else {
      assert others == orders.Keys;
    }
  }

  /** Zero when nothing is live, never negative when live volumes are positive. */
  lemma {:induction false} HeldByNonNegative(orders: map<string, Order>, ids: set<string>, key: string)
    requires ids <= orders.Keys
    requires forall id :: id in ids && orders[id].status == NotTraded ==> orders[id].total >= 1
    ensures HeldBy(orders, ids, key) >= 0
    ensures (forall id :: id in ids ==> orders[id].status != NotTraded) ==> HeldBy(orders, ids, key) == 0
    decreases |ids|
  {
    if ids != {} {
      var id :| id in ids;
      HeldByRemove(orders, ids, id, key);
      HeldByNonNegative(orders, ids - {id}, key);
    }
  }

  // ---------------------------------------------------------------- the books

  /** The trade `t` is the fill of order `o`: whole volume, within the limit. */
  predicate Fills(t: Trade, o: Order) {
    && o.status == AllTraded
    && t == Trade(o.symbol, o.exchange, o.id, t.tradeId, o.direction, o.offset, t.price, o.total)
    && Marketable(o, t.price)
    && 1 <= t.volume <= 500
  }

  function TradeTable(log: seq<Trade>): map<string, Trade> {
    if log == [] then map[]
    else TradeTable(log[..|log| - 1])[log[|log| - 1].tradeId := log[|log| - 1]]
  }

  /** The trade table holds the log, numbered 1 .. tradeId. */
  ghost predicate Numbered(log: seq<Trade>, tradeId: int, trades: map<string, Trade>) {
    && |log| == tradeId
    && trades == TradeTable(log)
    && forall i :: 0 <= i < |log| ==> log[i].tradeId == Text(i + 1)
  }

  /** Trades and completely traded orders match one to one; no other order has traded. */
  ghost predicate OneToOne(log: seq<Trade>, orders: map<string, Order>) {
    && (forall i :: 0 <= i < |log| ==> log[i].orderId in orders && Fills(log[i], orders[log[i].orderId]))
    && (forall i, j :: 0 <= i < j < |log| ==> log[i].orderId != log[j].orderId)
    && (forall id :: id in orders && orders[id].status == AllTraded ==> exists i :: 0 <= i < |log| && log[i].orderId == id)
    && (forall id :: id in orders ==> orders[id].id == id)
    && (forall id :: id in orders ==> orders[id].traded == if orders[id].status == AllTraded then orders[id].total else 0)
  }

  /** One position entry agrees with the trades: its volume, its price × volume,
      and no price without a position. */
  predicate LogBalances(p: Position, key: string, log: seq<Trade>) {
    && p.position == NetVolume(log, key)
    && p.position as real * p.price == OpenNotional(log, key)
    && (p.position == 0 ==> p.price == 0.0)
  }

  ghost predicate EntryBalances(p: Position, key: string, log: seq<Trade>, orders: map<string, Order>) {
    && LogBalances(p, key, log)
    && p.frozen == Held(orders, key)
  }

  ghost predicate Balanced(positions: map<string, Position>, log: seq<Trade>, orders: map<string, Order>) {
    forall key :: key in positions ==> EntryBalances(positions[key], key, log, orders)
  }

  ghost predicate Books(s: State) {
    && Safe(s)
    && s.orders == HeardOrders(s.events)
    && Numbered(HeardTrades(s.events), s.tradeId, s.trades)
    && OneToOne(HeardTrades(s.events), s.orders)
    && Balanced(s.positions, HeardTrades(s.events), s.orders)
  }

  /** Entering or withdrawing an order that has not traded. */
  lemma EnterKeepsOneToOne(log: seq<Trade>, orders: map<string, Order>, id: string, o: Order)
    requires OneToOne(log, orders)
    requires o.id == id && o.status != AllTraded && o.traded == 0
    requires id in orders ==> orders[id].status != AllTraded
    ensures OneToOne(log, orders[id := o])
  {
    forall i | 0 <= i < |log| ensures log[i].orderId != id {
      assert Fills(log[i], orders[log[i].orderId]);
    }
  }

  /** Filling a live order appends its one trade. */
  lemma FillKeepsOneToOne(log: seq<Trade>, orders: map<string, Order>, t: Trade, o: Order)
    requires OneToOne(log, orders)
    requires o.id in orders && orders[o.id].status == NotTraded
    requires Fills(t, o) && t.orderId == o.id && o.traded == o.total
    ensures OneToOne(log + [t], orders[o.id := o])
  {
    var after := orders[o.id := o];
    var log' := log + [t];
    forall i | 0 <= i < |log| ensures log[i].orderId != o.id {
      assert Fills(log[i], orders[log[i].orderId]);
    }
    forall x | x in after && after[x].status == AllTraded
      ensures exists i :: 0 <= i < |log'| && log'[i].orderId == x
    {
      if x == o.id {
        assert log'[|log|].orderId == x;
      } else {
        var i :| 0 <= i < |log| && log[i].orderId == x;
        assert log'[i].orderId == x;
      }
    }
  }

  lemma InitialBooks()
    ensures Books(INITIAL)
  {
  }

  lemma StartBooks(s: State, symbol: string, exchange: string)
    ensures Books(Start(s, symbol, exchange))
  {
    StartSafe(s, symbol, exchange);
    Heard1(s.events, WillBegin(symbol, exchange));
  }

  lemma StopBooks(s: State)
    ensures Books(Stop(s))
  {
    Heard1(s.events, Stopped);
  }

  lemma LiveOrder(s: State, id: string)
    requires Books(s) && id in s.orders && s.orders[id].status == NotTraded
    ensures var o := s.orders[id];
            && o.id == id && o.traded == 0 && 1 <= o.total <= 500 && (o.offset == Open || o.offset == Close)
            && MovedKey(o.symbol, o.exchange, o.direction, o.offset) in s.positions
  {
  }

  /** Entering an order under this id keeps the books exactly when no order
      carrying volume or a trade is overwritten. */
  predicate IdFree(s: State, id: string) {
    id in s.orders ==>
      || s.orders[id].status == Cancelled
      || (s.orders[id].status == NotTraded && !Freezes(s.orders[id].direction, s.orders[id].offset))
  }

  lemma SendKeepsBooks(s: State, id: string, req: OrderReq)
    requires Books(s) && IdFree(s, id)
    ensures Books(SendOrderWithId(s, id, req))
  {
    hide EntryBalances, LongKey, ShortKey, Safe, OneToOne, Numbered, MovedKey, HeardOrders, HeardTrades, Accepted;
    var s' := SendOrderWithId(s, id, req);
    var o := s'.orders[id];
    var log := HeardTrades(s.events);
    Heard1(s.events, GotOrder(o));
    EnterKeepsOneToOne(log, s.orders, id, o);
    if Accepted(s, req) { AcceptedHasKey(s, req); }
    forall key | key in s'.positions ensures EntryBalances(s'.positions[key], key, log, s'.orders) {
      SendBalances(s, id, req, key);
    }
  }

  lemma SendBalances(s: State, id: string, req: OrderReq, key: string)
    requires Books(s) && IdFree(s, id) && key in s.positions
    ensures var s' := SendOrderWithId(s, id, req);
            EntryBalances(s'.positions[key], key, HeardTrades(s.events), s'.orders)
  {
    hide LongKey, ShortKey, HeardOrders, HeardTrades, Numbered, OneToOne, Held, OpenNotional, NetVolume;
    var s' := SendOrderWithId(s, id, req);
    HeldUpdate(s.orders, id, s'.orders[id], key);
    assert EntryBalances(s.positions[key], key, HeardTrades(s.events), s.orders);
  }

  lemma SendBreaksBooks(s: State, id: string, req: OrderReq)
    requires Books(s) && !IdFree(s, id)
    ensures !Books(SendOrderWithId(s, id, req))
  {
    hide LongKey, ShortKey, HeardOrders, HeardTrades, Numbered, Held, OpenNotional, NetVolume;
    var s' := SendOrderWithId(s, id, req);
    var was := s.orders[id];
    Heard1(s.events, GotOrder(s'.orders[id]));
    var log := HeardTrades(s.events);
    if was.status == AllTraded {
      var i :| 0 <= i < |log| && log[i].orderId == id;
      assert !Fills(log[i], s'.orders[log[i].orderId]);
    } else {
      var key := MovedKey(was.symbol, was.exchange, was.direction, was.offset);
      HeldUpdate(s.orders, id, s'.orders[id], key);
      assert EntryBalances(s.positions[key], key, log, s.orders);
      assert !EntryBalances(s'.positions[key], key, log, s'.orders);
    }
  }

  /** The exact condition under which an incoming order keeps the books. */
  lemma SendKeepsBooksIff(s: State, id: string, req: OrderReq)
    requires Books(s)
    ensures Books(SendOrderWithId(s, id, req)) <==> IdFree(s, id)
  {
    if IdFree(s, id) { SendKeepsBooks(s, id, req); } else { SendBreaksBooks(s, id, req); }
  }

  lemma WithdrawnOneToOne(s: State, id: string)
    requires Books(s) && id in s.orders && s.orders[id].status == NotTraded
    ensures var w := Withdraw(s, id);
            && w.orders == HeardOrders(w.events)
            && HeardTrades(w.events) == HeardTrades(s.events)
            && OneToOne(HeardTrades(s.events), w.orders)
  {
    hide EntryBalances, LongKey, ShortKey, Safe, Numbered;
    var w := Withdraw(s, id);
    Heard1(s.events, GotOrder(w.orders[id]));
    EnterKeepsOneToOne(HeardTrades(s.events), s.orders, id, w.orders[id]);
  }

  lemma CancelKeepsBooks(s: State, id: string)
    requires Books(s)
    ensures Books(CancelOrder(s, id))
  {
    hide LongKey, ShortKey, Safe, HeardOrders, HeardTrades, Numbered, OneToOne, EntryBalances, MovedKey;
    if id in s.orders && s.orders[id].status == NotTraded {
      WithdrawnOneToOne(s, id);
      var s' := CancelOrder(s, id);
      LiveOrder(s, id);
      forall key | key in s'.positions ensures EntryBalances(s'.positions[key], key, HeardTrades(s.events), s'.orders) {
        CancelBalances(s, id, key);
      }
    }
  }

  lemma CancelBalances(s: State, id: string, key: string)
    requires Books(s) && id in s.orders && s.orders[id].status == NotTraded && key in s.positions
    ensures var s' := CancelOrder(s, id);
            key in s'.positions && EntryBalances(s'.positions[key], key, HeardTrades(s.events), s'.orders)
  {
    hide LongKey, ShortKey, HeardOrders, HeardTrades, Numbered, OneToOne, Held, OpenNotional, NetVolume;
    var s' := CancelOrder(s, id);
    HeldUpdate(s.orders, id, s'.orders[id], key);
    assert EntryBalances(s.positions[key], key, HeardTrades(s.events), s.orders);
  }

  /** Average-price update of an opening fill keeps position × price on the notional. */
  lemma OpenKeepsNotional(p: Position, volume: int, price: real)
    requires p.position >= 0 && volume >= 1
    ensures var q := OpenPosition(p, volume, price);
            q.position as real * q.price == p.position as real * p.price + volume as real * price
  {
    var n := (p.position + volume) as real;
    var total := p.position as real * p.price + volume as real * price;
    assert n * (total / n) == total;
  }

  lemma CloseKeepsNotional(p: Position, volume: int, price: real)
    ensures var q := ClosePosition(p, volume, price);
            q.position != 0 ==> q.position as real * q.price == p.position as real * p.price - volume as real * price
  {
    var n := (p.position - volume) as real;
    var total := p.position as real * p.price - volume as real * price;
    if n != 0.0 { assert n * (total / n) == total; }
  }

  lemma OpeningTradeBalances(p: Position, key: string, log: seq<Trade>, t: Trade)
    requires LogBalances(p, key, log) && p.position >= 0
    requires MovedKey(t.symbol, t.exchange, t.direction, t.offset) == key && t.offset == Open && t.volume >= 1
    ensures LogBalances(OpenPosition(p, t.volume, t.price), key, log + [t])
  {
    hide OpenNotional, NetVolume, MovedKey;
    Appended(log, t, key);
    OpenNotionalAppended(log, t, key);
    assert Notional(t, key) == t.volume as real * t.price;
    OpenKeepsNotional(p, t.volume, t.price);
    var q := OpenPosition(p, t.volume, t.price);
    assert q.position == p.position + t.volume;
  }

  lemma Negated(volume: int, price: real)
    ensures (-volume) as real * price == -(volume as real * price)
  {
  }

  lemma ClosingTradeBalances(p: Position, key: string, log: seq<Trade>, t: Trade)
    requires LogBalances(p, key, log)
    requires MovedKey(t.symbol, t.exchange, t.direction, t.offset) == key && t.offset == Close
    ensures LogBalances(ClosePosition(p, t.volume, t.price), key, log + [t])
  {
    hide OpenNotional, NetVolume, MovedKey;
    Appended(log, t, key);
    OpenNotionalAppended(log, t, key);
    CloseKeepsNotional(p, t.volume, t.price);
    assert Notional(t, key) == -(t.volume as real * t.price) by { Negated(t.volume, t.price); }
    var q := ClosePosition(p, t.volume, t.price);
    assert q.position == 0 ==> q.price == 0.0;
  }

  lemma OtherTradeBalances(p: Position, key: string, log: seq<Trade>, t: Trade)
    requires LogBalances(p, key, log)
    requires MovedKey(t.symbol, t.exchange, t.direction, t.offset) != key
    ensures LogBalances(p, key, log + [t])
  {
    hide OpenNotional, NetVolume, MovedKey;
    Appended(log, t, key);
    OpenNotionalAppended(log, t, key);
    assert Notional(t, key) == 0.0 && Signed(t, key) == 0;
    hide Notional, Signed;
    if p.position == 0 { FlatHasNoNotional(log, key); }
  }

  /** The new trade is the next in the log and the only one of its order. */
  lemma ExecutedOneToOne(s: State, id: string, price: real)
    requires Books(s) && Fillable(s, id) && !Outgrown(s, id) && Marketable(s.orders[id], price)
    ensures var s' := Execute(s, id, price);
            var t := TradeFor(s.orders[id], Text(s.tradeId + 1), price);
            && s'.orders == HeardOrders(s'.events)
            && HeardTrades(s'.events) == HeardTrades(s.events) + [t]
            && Numbered(HeardTrades(s'.events), s'.tradeId, s'.trades)
            && OneToOne(HeardTrades(s'.events), s'.orders)
  {
    hide EntryBalances, LongKey, ShortKey, Safe, MovedKey, OneToOne, Text, OpenPosition, ClosePosition;
    var s' := Execute(s, id, price);
    var log := HeardTrades(s.events);
    var t := TradeFor(s.orders[id], Text(s.tradeId + 1), price);
    LiveOrder(s, id);
    Heard2(s.events, t, s'.orders[id]);
    FillKeepsOneToOne(log, s.orders, t, s'.orders[id]);
    assert (log + [t])[..|log|] == log;
  }

  lemma ExecutedBalances(s: State, id: string, price: real, key: string)
    requires Books(s) && Fillable(s, id) && !Outgrown(s, id) && Marketable(s.orders[id], price)
    requires key in s.positions
    ensures var s' := Execute(s, id, price);
            var t := TradeFor(s.orders[id], Text(s.tradeId + 1), price);
            EntryBalances(s'.positions[key], key, HeardTrades(s.events) + [t], s'.orders)
  {
    hide LongKey, ShortKey, HeardOrders, HeardTrades, Numbered, OneToOne, Held, LogBalances, OpenPosition,
         ClosePosition, Text, Fills;
    LiveOrder(s, id);
    var o := s.orders[id];
    var s' := Execute(s, id, price);
    var t := TradeFor(o, Text(s.tradeId + 1), price);
    var log := HeardTrades(s.events);
    assert EntryBalances(s.positions[key], key, log, s.orders);
    HeldUpdate(s.orders, id, s'.orders[id], key);
    if MovedKey(o.symbol, o.exchange, o.direction, o.offset) != key {
      OtherTradeBalances(s.positions[key], key, log, t);
    } else if o.offset == Open {
      OpeningTradeBalances(s.positions[key], key, log, t);
      FrozenAfterOpen(s.positions[key], o.total, price);
    } else {
      ClosingTradeBalances(s.positions[key], key, log, t);
      FrozenAfterClose(s.positions[key], o.total, price);
    }
  }

  lemma FrozenAfterOpen(p: Position, volume: int, price: real)
    requires p.position + volume != 0
    ensures OpenPosition(p, volume, price).frozen == p.frozen - volume
  {
  }

  lemma FrozenAfterClose(p: Position, volume: int, price: real)
    ensures ClosePosition(p, volume, price).frozen == p.frozen
  {
  }

  lemma WithdrawKeepsBooks(s: State, id: string)
    requires Books(s) && id in s.orders && s.orders[id].status == NotTraded && s.orders[id].offset == Close
    ensures Books(Withdraw(s, id))
  {
    hide LongKey, ShortKey, HeardOrders, HeardTrades, Numbered, OneToOne, Held, LogBalances;
    WithdrawnOneToOne(s, id);
    var s' := Withdraw(s, id);
    forall k | k in s'.positions ensures EntryBalances(s'.positions[k], k, HeardTrades(s.events), s'.orders) {
      HeldUpdate(s.orders, id, s'.orders[id], k);
      assert EntryBalances(s.positions[k], k, HeardTrades(s.events), s.orders);
    }
  }

  lemma ExecuteKeepsBooks(s: State, id: string, price: real)
    requires Books(s) && Fillable(s, id) && !Outgrown(s, id) && Marketable(s.orders[id], price)
    ensures Books(Execute(s, id, price))
  {
    hide LongKey, ShortKey, MovedKey, Safe, HeardOrders, HeardTrades, Numbered, OneToOne, EntryBalances, Text,
         OpenPosition, ClosePosition;
    var s' := Execute(s, id, price);
    var log := HeardTrades(s.events) + [TradeFor(s.orders[id], Text(s.tradeId + 1), price)];
    LiveOrder(s, id);
    ExecutedOneToOne(s, id, price);
    forall k | k in s'.positions ensures EntryBalances(s'.positions[k], k, log, s'.orders) {
      ExecutedBalances(s, id, price, k);
    }
  }

  lemma TickOrderKeepsBooks(s: State, id: string, tick: Tick)
    requires Books(s)
    ensures Books(TickOrder(s, id, tick))
  {
    hide LongKey, ShortKey, Execute, Withdraw, MovedKey, HeardOrders, HeardTrades, Numbered, OneToOne, Balanced;
    if id in s.orders && Hit(s.orders[id], tick) {
      LiveOrder(s, id);
      if Outgrown(s, id) {
        WithdrawKeepsBooks(s, id);
      } else {
        ExecuteKeepsBooks(s, id, tick.lastPrice);
      }
    }
  }

  lemma {:induction false} TickOrdersKeepsBooks(s: State, ids: seq<string>, tick: Tick)
    requires Books(s)
    ensures Books(TickOrders(s, ids, tick))
  {
    hide OneToOne, Numbered, Balanced, TickOrder;
    if ids != [] {
      TickOrdersKeepsBooks(s, ids[..|ids| - 1], tick);
      TickOrderKeepsBooks(TickOrders(s, ids[..|ids| - 1], tick), ids[|ids| - 1], tick);
    }
  }
}
