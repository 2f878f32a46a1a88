/** The gateway object itself: maps of order and position objects that its methods
    update in place, refining the functions of module Backtest. */
module BacktestGateway {
  import opened Lex
  import opened Decimal
  import opened Backtest

  class OrderData {
    var symbol: string
    var exchange: string
    var bfOrderId: string
    var direction: Direction
    var offset: Offset
    var status: Status
    var price: real
    var totalVolume: int
    var tradedVolume: int

    constructor (id: string, req: OrderReq)
      ensures Data() == NewOrder(id, req, NotTraded)
    {
      exchange := req.exchange;
      symbol := req.symbol;
      bfOrderId := id;
      direction := req.direction;
      offset := req.offset;
      status := NotTraded;
      price := req.price;
      totalVolume := req.volume;
      tradedVolume := 0;
    }

    function Data(): Order
      reads this
    {
      Order(symbol, exchange, bfOrderId, direction, offset, status, price, totalVolume, tradedVolume)
    }
  }

  class PositionData {
    var symbol: string
    var exchange: string
    var direction: Direction
    var position: int
    var price: real
    var frozen: int
    var ydPosition: int

    constructor (symbol: string, exchange: string, direction: Direction)
      ensures Data() == Flat(symbol, exchange, direction)
    {
      this.symbol := symbol;
      this.exchange := exchange;
      this.direction := direction;
      position := 0;
      price := 0.0;
      frozen := 0;
      ydPosition := 0;
    }

    function Data(): Position
      reads this
    {
      Position(symbol, exchange, direction, position, price, frozen, ydPosition)
    }
  }

  class GatewayMgr {
    var orderId: int
    var tradeId: int
    var positions: map<string, PositionData>
    var orders: map<string, OrderData>
    var trades: map<string, Trade>
    var events: seq<Event>

    /** The value the fields and the objects they point to stand for. */
    ghost var book: State

    /** The fields and objects hold the book, and the book is one that every look-up
        and division is defined on. */
    ghost predicate Valid()
      reads this, positions.Values, orders.Values
    {
      && orderId == book.orderId && tradeId == book.tradeId && trades == book.trades && events == book.events
      && OrdersTied() && PositionsTied()
      && Safe(book)
    }

    /** Every order object holds its entry of the book, and no two entries share one. */
    ghost predicate OrdersTied()
      reads this`orders, this`book, orders.Values
    {
      && orders.Keys == book.orders.Keys
      && (forall id :: id in orders ==> orders[id].Data() == book.orders[id])
      && (forall i, j :: i in orders && j in orders && i != j ==> orders[i] != orders[j])
    }

    ghost predicate PositionsTied()
      reads this`positions, this`book, positions.Values
    {
      && positions.Keys == book.positions.Keys
      && (forall k :: k in positions ==> positions[k].Data() == book.positions[k])
      && (forall i, j :: i in positions && j in positions && i != j ==> positions[i] != positions[j])
    }

    lemma OrderTied(id: string)
      requires OrdersTied()
      ensures orders.Keys == book.orders.Keys
      ensures id in orders ==> orders[id].Data() == book.orders[id]
    {
    }

    lemma PositionTied(key: string)
      requires PositionsTied()
      ensures positions.Keys == book.positions.Keys
      ensures key in positions ==> positions[key].Data() == book.positions[key]
    {
    }

    /** After writes to one order object only its own entry has to follow. */
    twostate lemma OneOrderWritten(id: string)
      requires old(OrdersTied()) && orders == old(orders) && id in orders
      requires forall k :: k in orders && orders[k] != orders[id] ==> orders[k].Data() == old(orders[k].Data())
      requires book.orders == old(book.orders)[id := orders[id].Data()]
      ensures OrdersTied()
    {
    }

    twostate lemma OnePositionWritten(key: string)
      requires old(PositionsTied()) && positions == old(positions) && key in positions
      requires forall k :: k in positions && positions[k] != positions[key] ==> positions[k].Data() == old(positions[k].Data())
      requires book.positions == old(book.positions)[key := positions[key].Data()]
      ensures PositionsTied()
    {
    }

    /** Nor does a new object, entered under one id, touch the other entries. */
    twostate lemma OneOrderEntered(id: string, new order: OrderData)
      requires old(OrdersTied()) && fresh(order) && orders == old(orders)[id := order]
      requires forall k :: k in old(orders) ==> old(orders)[k].Data() == old(orders[k].Data())
      requires book.orders == old(book.orders)[id := order.Data()]
      ensures OrdersTied()
    {
    }

    twostate lemma OnePositionEntered(key: string, new pos: PositionData)
      requires old(PositionsTied()) && fresh(pos) && positions == old(positions)[key := pos]
      requires forall k :: k in old(positions) ==> old(positions)[k].Data() == old(positions[k].Data())
      requires book.positions == old(book.positions)[key := pos.Data()]
      ensures PositionsTied()
    {
    }

    twostate lemma NoPositionWritten()
      requires old(PositionsTied()) && positions == old(positions) && book.positions == old(book.positions)
      requires forall k :: k in positions ==> positions[k].Data() == old(positions[k].Data())
      ensures PositionsTied()
    {
    }

    twostate lemma NoOrderWritten()
      requires old(OrdersTied()) && orders == old(orders) && book.orders == old(book.orders)
      requires forall k :: k in orders ==> orders[k].Data() == old(orders[k].Data())
      ensures OrdersTied()
    {
    }

    constructor ()
      ensures Valid() && book == INITIAL && orders == map[] && positions == map[]
    {
      orderId, tradeId, positions, orders, trades, events := 0, 0, map[], map[], map[], [];
      book := INITIAL;
    }

    // ------------------------------------------------------ writes to one object

    /** The book follows the counters, the trade table and the signals. */
    ghost method Settle()
      requires OrdersTied() && PositionsTied()
      modifies this`book
      ensures OrdersTied() && PositionsTied()
      ensures book == old(book).(tradeId := tradeId, trades := trades, events := events)
    {
      hide OrdersTied, PositionsTied;
      book := book.(tradeId := tradeId, trades := trades, events := events);
      NoOrderWritten();
      NoPositionWritten();
    }

    /** order->set_status */
    method SetStatus(ghost id: string, order: OrderData, status: Status)
      requires OrdersTied() && PositionsTied() && id in orders && orders[id] == order
      modifies order, this`book
      ensures OrdersTied() && PositionsTied()
      ensures book == old(book.(orders := book.orders[id := order.Data().(status := status)]))
      ensures order.Data() == old(order.Data().(status := status))
    {
      hide OrdersTied, PositionsTied;
      order.status := status;
      book := book.(orders := book.orders[id := order.Data()]);
      OneOrderWritten(id);
      NoPositionWritten();
    }

    /** order->set_tradedvolume and order->set_status */
    method SetTraded(ghost id: string, order: OrderData)
      requires OrdersTied() && PositionsTied() && id in orders && orders[id] == order
      modifies order, this`book
      ensures OrdersTied() && PositionsTied()
      ensures book == old(book.(orders := book.orders[id := order.Data().(traded := order.totalVolume, status := AllTraded)]))
      ensures order.Data() == old(order.Data().(traded := order.totalVolume, status := AllTraded))
    {
      hide OrdersTied, PositionsTied;
      order.tradedVolume := order.totalVolume;
      order.status := AllTraded;
      book := book.(orders := book.orders[id := order.Data()]);
      OneOrderWritten(id);
      NoPositionWritten();
    }

    /** pos->set_price, pos->set_position and pos->set_frozen */
    method SetPosition(key: string, price: real, position: int, frozen: int)
      requires OrdersTied() && PositionsTied() && key in positions
      modifies positions[key], this`book
      ensures OrdersTied() && PositionsTied()
      ensures book == old(book.(positions := book.positions[key :=
                      positions[key].Data().(price := price, position := position, frozen := frozen)]))
    {
      hide OrdersTied, PositionsTied;
      var pos := positions[key];
      pos.price := price;
      pos.position := position;
      pos.frozen := frozen;
      book := book.(positions := book.positions[key := pos.Data()]);
      OnePositionWritten(key);
      NoOrderWritten();
    }

    /** A new order object, entered under its id. */
    method EnterOrder(id: string, req: OrderReq) returns (order: OrderData)
      requires OrdersTied() && PositionsTied()
      modifies this`orders, this`book
      ensures OrdersTied() && PositionsTied() && fresh(order) && orders == old(orders)[id := order]
      ensures order.Data() == NewOrder(id, req, NotTraded)
      ensures book == old(book).(orders := old(book).orders[id := NewOrder(id, req, NotTraded)])
    {
      hide OrdersTied, PositionsTied;
      order := new OrderData(id, req);
      orders := orders[id := order];
      book := book.(orders := book.orders[id := order.Data()]);
      OneOrderEntered(id, order);
      NoPositionWritten();
    }

    /** A new, flat position object, entered under its key. */
    method EnterPosition(key: string, symbol: string, exchange: string, direction: Direction)
      requires OrdersTied() && PositionsTied()
      modifies this`positions, this`book
      ensures OrdersTied() && PositionsTied()
      ensures key in positions && fresh(positions[key]) && positions == old(positions)[key := positions[key]]
      ensures book == old(book).(positions := old(book).positions[key := Flat(symbol, exchange, direction)])
    {
      hide OrdersTied, PositionsTied;
      var pos := new PositionData(symbol, exchange, direction);
      positions := positions[key := pos];
      book := book.(positions := book.positions[key := pos.Data()]);
      OnePositionEntered(key, pos);
      NoOrderWritten();
    }

    // ------------------------------------------------------ the gateway's operations

    /** emit */
    method Emit(e: Event)
      modifies this`events
      ensures events == old(events) + [e]
    {
      events := events + [e];
    }

    method GenTradeId() returns (id: string)
      modifies this`tradeId
      ensures tradeId == old(tradeId) + 1 && id == Text(tradeId)
    {
      tradeId := tradeId + 1;
      id := Text(tradeId);
    }

    /** The first access of a draw, */
    method CountOrder()
      requires Valid()
      modifies this`orderId, this`book
      ensures Valid() && book == Backtest.CountOrder(old(book))
    {
      hide LongKey, ShortKey, Safe;
      orderId := orderId + 1;
      book := Backtest.CountOrder(book);
    }

    /** and the second. */
    method LookOrderId() returns (n: int)
      requires Valid()
      ensures Text(n) == CurrentId(book)
    {
      n := orderId;
    }

    /** Both with nothing in between. */
    method GenOrderId() returns (id: string)
      requires Valid()
      modifies this`orderId, this`book
      ensures Valid() && book == Backtest.CountOrder(old(book)) && id == CurrentId(book)
    {
      hide LongKey, ShortKey;
      CountOrder();
      var n := LookOrderId();
      id := Text(n);
    }

    method ResetData()
      modifies this
      ensures Valid() && book == Reset(old(book).(events := old(events))) && orders == map[] && positions == map[]
    {
      orderId := 0;
      tradeId := 0;
      positions := map[];
      orders := map[];
      trades := map[];
      book := Reset(book.(events := events));
    }

    method Start(symbol: string, exchange: string)
      requires Valid()
      modifies this
      ensures Valid() && book == Backtest.Start(old(book), symbol, exchange)
      ensures orders == map[] && fresh(positions.Values)
    {
      hide LongKey, ShortKey, Safe, OrdersTied, PositionsTied;
      ghost var before := book;
      ResetData();
      Emit(WillBegin(symbol, exchange));
      EnterPosition(LongKey(symbol, exchange), symbol, exchange, Long);
      EnterPosition(ShortKey(symbol, exchange), symbol, exchange, Short);
      Settle();
      assert book == Backtest.Start(before, symbol, exchange);
      StartSafe(before, symbol, exchange);
    }

    method Stop()
      requires Valid()
      modifies this
      ensures Valid() && book == Backtest.Stop(old(book)) && orders == map[] && positions == map[]
    {
      ResetData();
      Emit(Stopped);
      book := book.(events := events);
    }

    method SendOrder(req: OrderReq)
      requires Valid()
      modifies this, positions.Values
      ensures Valid()
      ensures var counted := Backtest.CountOrder(old(book));
              book == Backtest.SendOrderWithId(counted, CurrentId(counted), req)
    {
      hide LongKey, ShortKey;
      var id := GenOrderId();
      SendOrderWithId(id, req);
    }

    method SendOrderWithId(id: string, req: OrderReq)
      requires Valid()
      modifies this`orders, this`events, this`book, positions.Values
      ensures Valid() && book == Backtest.SendOrderWithId(old(book), id, req)
    {
      hide LongKey, ShortKey, Text, OrdersTied, PositionsTied, Safe, Accepted;
      ghost var before := book;
      if Accepted(book, req) { AcceptedHasKey(book, req); }
      var order := Enter(id, req);
      PositionTied(LongKey(req.symbol, req.exchange));
      PositionTied(ShortKey(req.symbol, req.exchange));
      if order.status == NotTraded {
        Freeze(order, order.totalVolume);
      }
      Emit(GotOrder(order.Data()));
      Settle();
      assert book == Backtest.SendOrderWithId(before, id, req);
    }

    /** The new order, live or cancelled at once. */
    method Enter(id: string, req: OrderReq) returns (order: OrderData)
      requires Valid()
      modifies this`orders, this`book
      ensures OrdersTied() && PositionsTied() && fresh(order)
      ensures order.Data() == NewOrder(id, req, if Accepted(old(book), req) then NotTraded else Cancelled)
      ensures book == old(book).(orders := old(book).orders[id := order.Data()])
    {
      hide LongKey, ShortKey, Text, OrdersTied, PositionsTied, Safe, Passes, KeysTogether;
      SafeKeys(book);
      order := EnterOrder(id, req);
      Validate(id, order, req);
    }

    /** The checks an incoming order has to pass; the first that fails cancels it. */
    method Validate(ghost id: string, order: OrderData, req: OrderReq)
      requires OrdersTied() && PositionsTied() && id in orders && orders[id] == order
      requires order.Data() == NewOrder(id, req, NotTraded) == book.orders[id]
      requires KeysTogether(book.positions)
      modifies order, this`book
      ensures OrdersTied() && PositionsTied()
      ensures order.Data() == NewOrder(id, req, if Passes(old(book).positions, req) then NotTraded else Cancelled)
      ensures book == old(book).(orders := old(book).orders[id := order.Data()])
    {
      hide LongKey, ShortKey, OrdersTied, PositionsTied;
      var longKey := LongKey(order.symbol, order.exchange);
      var shortKey := ShortKey(order.symbol, order.exchange);
      PositionTied(longKey);
      PositionTied(shortKey);
      OrderTied(id);
      assert book.orders == book.orders[id := order.Data()];
      if longKey !in positions {
        SetStatus(id, order, Cancelled);
      } else if req.priceType != LimitPrice {
        SetStatus(id, order, Cancelled);
      } else if req.volume < 1 || req.volume > 500 {
        SetStatus(id, order, Cancelled);
      } else if req.offset != Open && req.offset != Close {
        SetStatus(id, order, Cancelled);
      } else if req.offset == Close && req.direction == Short && positions[longKey].position < order.totalVolume {
        SetStatus(id, order, Cancelled);
      } else if req.offset == Close && (req.direction == Long || req.direction == Net)
                && positions[shortKey].position < order.totalVolume {
        SetStatus(id, order, Cancelled);
      }
    }

    /** Add to the frozen volume of the entry an opening order works on. */
    method Freeze(order: OrderData, volume: int)
      requires OrdersTied() && PositionsTied()
      requires Freezes(order.direction, order.offset) ==>
                 MovedKey(order.symbol, order.exchange, order.direction, order.offset) in positions
      modifies positions.Values, this`book
      ensures OrdersTied() && PositionsTied() && order.Data() == old(order.Data())
      ensures book == old(if Freezes(order.direction, order.offset) &&
                             MovedKey(order.symbol, order.exchange, order.direction, order.offset) in book.positions
                          then AddFrozen(book, MovedKey(order.symbol, order.exchange, order.direction, order.offset), volume)
                          else book)
    {
      hide LongKey, ShortKey, OrdersTied, PositionsTied;
      PositionTied(MovedKey(order.symbol, order.exchange, order.direction, order.offset));
      if order.offset == Open && order.direction == Short {
        var shortKey := ShortKey(order.symbol, order.exchange);
        var shortPos := positions[shortKey];
        SetPosition(shortKey, shortPos.price, shortPos.position, shortPos.frozen + volume);
      } else if order.offset == Open && (order.direction == Long || order.direction == Net) {
        var longKey := LongKey(order.symbol, order.exchange);
        var longPos := positions[longKey];
        SetPosition(longKey, longPos.price, longPos.position, longPos.frozen + volume);
      }
    }

    method CancelOrder(id: string)
      requires Valid()
      modifies this`events, this`book, orders.Values, positions.Values
      ensures Valid() && book == Backtest.CancelOrder(old(book), id)
    {
      hide LongKey, ShortKey, Safe, OrdersTied, PositionsTied;
      OrderTied(id);
      if id !in orders {
        return;
      }
      var order := orders[id];
      if order.status == AllTraded || order.status == Cancelled {
        return;
      }
      LiveOrderBacked(book, id);
      PositionTied(LongKey(order.symbol, order.exchange));
      ghost var after := Backtest.CancelOrder(book, id);
      if order.status == NotTraded {
        Freeze(order, -order.totalVolume);
      }
      SetStatus(id, order, Cancelled);
      Emit(GotOrder(order.Data()));
      Settle();
      assert book == after;
    }

    method OnGotTick(tick: Tick)
      requires Valid()
      modifies this`events, this`trades, this`tradeId, this`book, orders.Values, positions.Values
      ensures Valid() && book == Backtest.OnGotTick(old(book), tick)
    {
      hide LongKey, ShortKey, Safe, TickOrder, TickOrders, SortedKeys;
      var ids := SortedKeys(orders.Keys);
      NoOrdersTicked(book, tick);
      for i := 0 to |ids|
        invariant Valid()
        invariant book == TickOrders(old(book), ids[..i], tick)
      {
        NextOrderTicked(old(book), ids, i, tick);
        MatchOrder(ids[i], orders[ids[i]], tick);
      }
      assert ids[..|ids|] == ids;
    }

    /** One round of the matching loop. */
    method MatchOrder(ghost id: string, order: OrderData, tick: Tick)
      requires Valid() && id in orders && orders[id] == order
      modifies this`events, this`trades, this`tradeId, this`book, orders.Values, positions.Values
      ensures Valid() && book == TickOrder(old(book), id, tick)
    {
      hide LongKey, ShortKey, Safe, Fill;
      if order.status == AllTraded || order.status == Cancelled {
        return;
      }
      if order.symbol != tick.symbol || order.exchange != tick.exchange {
        return;
      }
      if order.direction == Long || order.direction == Net {
        if order.offset == Open {
          if order.price >= tick.lastPrice {
            OnLongOpen(id, order, tick);
          }
        }
      }
      if order.direction == Short {
        if order.offset == Open {
          if order.price <= tick.lastPrice {
            OnShortOpen(id, order, tick);
          }
        }
      }
      if order.direction == Long || order.direction == Net {
        if order.offset == Close {
          if order.price >= tick.lastPrice {
            OnLongClose(id, order, tick);
          }
        }
      }
      if order.direction == Short {
        if order.offset == Close {
          if order.price <= tick.lastPrice {
            OnShortClose(id, order, tick);
          }
        }
      }
    }

    /** The order and its trade, common to the four handlers. */
    method RecordTrade(ghost id: string, order: OrderData, tick: Tick) returns (trade: Trade)
      requires OrdersTied() && PositionsTied() && id in orders && orders[id] == order
      modifies this`trades, this`tradeId, this`book, order
      ensures OrdersTied() && PositionsTied()
      ensures tradeId == old(tradeId) + 1
      ensures trade == TradeFor(old(order.Data()), Text(tradeId), tick.lastPrice)
      ensures trades == old(trades)[trade.tradeId := trade]
      ensures order.Data() == old(order.Data().(traded := order.totalVolume, status := AllTraded))
      ensures book == old(book.(orders := book.orders[id := order.Data().(traded := order.totalVolume, status := AllTraded)]))
    {
      hide Text, OrdersTied, PositionsTied;
      SetTraded(id, order);
      var tradeId := GenTradeId();
      trade := Trade(order.symbol, order.exchange, order.bfOrderId, tradeId, order.direction, order.offset,
                     tick.lastPrice, order.totalVolume);
      trades := trades[tradeId := trade];
    }

    method OnLongOpen(ghost id: string, order: OrderData, tick: Tick)
      requires Valid() && id in orders && orders[id] == order
      requires order.status == NotTraded && LongSide(order.direction) && order.offset == Open
      modifies this`events, this`trades, this`tradeId, this`book, orders.Values, positions.Values
      ensures Valid() && book == Fill(old(book), id, tick.lastPrice)
      ensures order.direction == old(order.direction) && order.offset == old(order.offset)
    {
      hide LongKey, ShortKey, Text, Safe, OpenPrice, ClosePrice, OrdersTied, PositionsTied;
      OrderTied(id);
      LiveOrderBacked(book, id);
      PositionTied(LongKey(order.symbol, order.exchange));
      ghost var after := Fill(book, id, tick.lastPrice);
      var trade := RecordTrade(id, order, tick);
      var longKey := LongKey(trade.symbol, trade.exchange);
      PositionTied(longKey);
      var longPos := positions[longKey];
      var newPos := longPos.position + trade.volume;
      var newPrice := OpenPrice(longPos.position, longPos.price, trade.volume, trade.price);
      SetPosition(longKey, newPrice, newPos, longPos.frozen - trade.volume);
      Emit(GotTrade(trade));
      Emit(GotOrder(order.Data()));
      Settle();
      assert book == after;
    }

    method OnShortOpen(ghost id: string, order: OrderData, tick: Tick)
      requires Valid() && id in orders && orders[id] == order
      requires order.status == NotTraded && order.direction == Short && order.offset == Open
      modifies this`events, this`trades, this`tradeId, this`book, orders.Values, positions.Values
      ensures Valid() && book == Fill(old(book), id, tick.lastPrice)
      ensures order.direction == old(order.direction) && order.offset == old(order.offset)
    {
      hide LongKey, ShortKey, Text, Safe, OpenPrice, ClosePrice, OrdersTied, PositionsTied;
      OrderTied(id);
      LiveOrderBacked(book, id);
      PositionTied(ShortKey(order.symbol, order.exchange));
      ghost var after := Fill(book, id, tick.lastPrice);
      var trade := RecordTrade(id, order, tick);
      var shortKey := ShortKey(trade.symbol, trade.exchange);
      PositionTied(shortKey);
      var shortPos := positions[shortKey];
      var newPos := shortPos.position + trade.volume;
      var newPrice := OpenPrice(shortPos.position, shortPos.price, trade.volume, trade.price);
      SetPosition(shortKey, newPrice, newPos, shortPos.frozen - trade.volume);
      Emit(GotTrade(trade));
      Emit(GotOrder(order.Data()));
      Settle();
      assert book == after;
    }

    method OnLongClose(ghost id: string, order: OrderData, tick: Tick)
      requires Valid() && id in orders && orders[id] == order
      requires order.status == NotTraded && LongSide(order.direction) && order.offset == Close
      modifies this`events, this`trades, this`tradeId, this`book, orders.Values, positions.Values
      ensures Valid() && book == Fill(old(book), id, tick.lastPrice)
      ensures order.direction == old(order.direction) && order.offset == old(order.offset)
    {
      hide LongKey, ShortKey, Text, Safe, OpenPrice, ClosePrice, OrdersTied, PositionsTied;
      OrderTied(id);
      LiveOrderBacked(book, id);
      PositionTied(ShortKey(order.symbol, order.exchange));
      ghost var after := Fill(book, id, tick.lastPrice);
      var shortKey := ShortKey(order.symbol, order.exchange);
      var shortPos := positions[shortKey];
      if shortPos.position < order.totalVolume {
        SetStatus(id, order, Cancelled);
        Emit(GotOrder(order.Data()));
        Settle();
        assert book == after;
        return;
      }
      var trade := RecordTrade(id, order, tick);
      var newPos := shortPos.position - trade.volume;
      var newPrice := ClosePrice(shortPos.position, shortPos.price, trade.volume, trade.price);
      SetPosition(shortKey, newPrice, newPos, shortPos.frozen);
      Emit(GotTrade(trade));
      Emit(GotOrder(order.Data()));
      Settle();
      assert book == after;
    }

    method OnShortClose(ghost id: string, order: OrderData, tick: Tick)
      requires Valid() && id in orders && orders[id] == order
      requires order.status == NotTraded && order.direction == Short && order.offset == Close
      modifies this`events, this`trades, this`tradeId, this`book, orders.Values, positions.Values
      ensures Valid() && book == Fill(old(book), id, tick.lastPrice)
      ensures order.direction == old(order.direction) && order.offset == old(order.offset)
    {
      hide LongKey, ShortKey, Text, Safe, OpenPrice, ClosePrice, OrdersTied, PositionsTied;
      OrderTied(id);
      LiveOrderBacked(book, id);
      PositionTied(LongKey(order.symbol, order.exchange));
      ghost var after := Fill(book, id, tick.lastPrice);
      var longKey := LongKey(order.symbol, order.exchange);
      var longPos := positions[longKey];
      if longPos.position < order.totalVolume {
        SetStatus(id, order, Cancelled);
        Emit(GotOrder(order.Data()));
        Settle();
        assert book == after;
        return;
      }
      var trade := RecordTrade(id, order, tick);
      var newPos := longPos.position - trade.volume;
      var newPrice := ClosePrice(longPos.position, longPos.price, trade.volume, trade.price);
      SetPosition(longKey, newPrice, newPos, longPos.frozen);
      Emit(GotTrade(trade));
      Emit(GotOrder(order.Data()));
      Settle();
      assert book == after;
    }
  }
}
