/** The backtest exchange of btgateway: what each operation does to the book,
    as functions on values. The class in BacktestGateway.dfy refines them. */
module Backtest {
  import opened Lex
  import opened Decimal

  datatype Direction = UnknownDirection | Long | Short | Net
  datatype Offset = UnknownOffset | Open | Close | CloseToday | CloseYesterday
  datatype PriceType = UnknownPrice | LimitPrice | MarketPrice

  // The component assigns only these three of the message's statuses.
  datatype Status = NotTraded | AllTraded | Cancelled

  datatype OrderReq = OrderReq(symbol: string, exchange: string, price: real, volume: int,
                               direction: Direction, offset: Offset, priceType: PriceType)

  datatype Order = Order(symbol: string, exchange: string, id: string, direction: Direction, offset: Offset,
                         status: Status, price: real, total: int, traded: int)

  datatype Trade = Trade(symbol: string, exchange: string, orderId: string, tradeId: string,
                         direction: Direction, offset: Offset, price: real, volume: int)

  datatype Position = Position(symbol: string, exchange: string, direction: Direction,
                               position: int, price: real, frozen: int, ydPosition: int)

  datatype Tick = Tick(symbol: string, exchange: string, lastPrice: real)

  // The signals the gateway emits.
  datatype Event = WillBegin(symbol: string, exchange: string) | Stopped | GotOrder(order: Order) | GotTrade(trade: Trade)

  datatype State = State(orderId: int, tradeId: int, positions: map<string, Position>,
                         orders: map<string, Order>, trades: map<string, Trade>, events: seq<Event>)

  const INITIAL := State(0, 0, map[], map[], map[], [])

  function LongKey(symbol: string, exchange: string): string {
    symbol + "-" + exchange + "-long"
  }

  function ShortKey(symbol: string, exchange: string): string {
    symbol + "-" + exchange + "-short"
  }

  predicate LongSide(d: Direction) {
    d == Long || d == Net
  }

  /** The position entry an order or trade of this direction and offset moves: a buy
      opens the long entry and closes the short one, a sell the other way round. */
  function MovedKey(symbol: string, exchange: string, d: Direction, o: Offset): string {
    if LongSide(d) <==> o == Open then LongKey(symbol, exchange) else ShortKey(symbol, exchange)
  }

  // ---------------------------------------------------------------- operations

  function Reset(s: State): State {
    State(0, 0, map[], map[], map[], s.events)
  }

  function Flat(symbol: string, exchange: string, d: Direction): Position {
    Position(symbol, exchange, d, 0, 0.0, 0, 0)
  }

  function Start(s: State, symbol: string, exchange: string): State {
    State(0, 0,
          map[LongKey(symbol, exchange) := Flat(symbol, exchange, Long)]
             [ShortKey(symbol, exchange) := Flat(symbol, exchange, Short)],
          map[], map[], s.events + [WillBegin(symbol, exchange)])
  }

  function Stop(s: State): State {
    Reset(s).(events := s.events + [Stopped])
  }

  /** Drawing an order id: the counter is counted up, */
  function CountOrder(s: State): (r: State)
    ensures Safe(s) ==> Safe(r)
  {
    s.(orderId := s.orderId + 1)
  }

  /** and read back. */
  function CurrentId(s: State): string {
    Text(s.orderId)
  }

  function NewOrder(id: string, req: OrderReq, status: Status): Order {
    Order(req.symbol, req.exchange, id, req.direction, req.offset, status, req.price, req.volume, 0)
  }

  /** The five checks an incoming order has to pass. */
  predicate Accepted(s: State, req: OrderReq)
    requires Safe(s)
  {
    Passes(s.positions, req)
  }

  predicate Passes(positions: map<string, Position>, req: OrderReq)
    requires KeysTogether(positions)
  {
    && LongKey(req.symbol, req.exchange) in positions
    && req.priceType == LimitPrice
    && 1 <= req.volume <= 500
    && (req.offset == Open || req.offset == Close)
    && (req.offset == Close && req.direction == Short ==>
          positions[LongKey(req.symbol, req.exchange)].position >= req.volume)
    && (req.offset == Close && LongSide(req.direction) ==>
          positions[ShortKey(req.symbol, req.exchange)].position >= req.volume)
  }

  /** An accepted order of this shape holds its volume frozen while it is live. */
  predicate Freezes(d: Direction, o: Offset) {
    o == Open && d != UnknownDirection
  }

  function AddFrozen(s: State, key: string, volume: int): State
    requires key in s.positions
  {
    var p := s.positions[key];
    s.(positions := s.positions[key := p.(frozen := p.frozen + volume)])
  }

  function SendOrderWithId(s: State, id: string, req: OrderReq): (r: State)
    requires Safe(s)
    ensures Safe(r)
  {
    var order := NewOrder(id, req, if Accepted(s, req) then NotTraded else Cancelled);
    var entered := s.(orders := s.orders[id := order], events := s.events + [GotOrder(order)]);
    if Accepted(s, req) && Freezes(req.direction, req.offset)
    then AddFrozen(entered, MovedKey(req.symbol, req.exchange, req.direction, req.offset), req.volume)
    else entered
  }

  function CancelOrder(s: State, id: string): (r: State)
    requires Safe(s)
    ensures Safe(r)
  {
    if id !in s.orders || s.orders[id].status != NotTraded then s
    else
      var order := s.orders[id];
      var cancelled := Withdraw(s, id);
      if Freezes(order.direction, order.offset)
      then AddFrozen(cancelled, MovedKey(order.symbol, order.exchange, order.direction, order.offset), -order.total)
      else cancelled
  }

  function Withdraw(s: State, id: string): State
    requires id in s.orders
  {
    var order := s.orders[id].(status := Cancelled);
    s.(orders := s.orders[id := order], events := s.events + [GotOrder(order)])
  }

  predicate Marketable(o: Order, price: real) {
    || (LongSide(o.direction) && o.price >= price)
    || (o.direction == Short && o.price <= price)
  }

  predicate Hit(o: Order, tick: Tick) {
    && o.status == NotTraded
    && o.symbol == tick.symbol && o.exchange == tick.exchange
    && (o.offset == Open || o.offset == Close)
    && Marketable(o, tick.lastPrice)
  }

  /** Average price after adding `volume` at `tradePrice` to a position. */
  function OpenPrice(position: int, price: real, volume: int, tradePrice: real): real
    requires position + volume != 0
  {
    (position as real * price + volume as real * tradePrice) / (position + volume) as real
  }

  /** Average price after taking `volume` at `tradePrice` off a position. */
  function ClosePrice(position: int, price: real, volume: int, tradePrice: real): real {
    if position - volume != 0
    then (position as real * price - volume as real * tradePrice) / (position - volume) as real
    else 0.0
  }

  function OpenPosition(p: Position, volume: int, price: real): Position
    requires p.position + volume != 0
  {
    p.(price := OpenPrice(p.position, p.price, volume, price), position := p.position + volume, frozen := p.frozen - volume)
  }

  function ClosePosition(p: Position, volume: int, price: real): Position {
    p.(price := ClosePrice(p.position, p.price, volume, price), position := p.position - volume)
  }

  function TradeFor(o: Order, tradeId: string, price: real): Trade {
    Trade(o.symbol, o.exchange, o.id, tradeId, o.direction, o.offset, price, o.total)
  }

  /** A live order of a known direction. */
  predicate Fillable(s: State, id: string) {
    id in s.orders && s.orders[id].status == NotTraded && s.orders[id].direction != UnknownDirection
  }

  /** A close order for more than its position entry now holds. */
  predicate Outgrown(s: State, id: string)
    requires Safe(s) && Fillable(s, id)
  {
    var o := s.orders[id];
    o.offset == Close && s.positions[MovedKey(o.symbol, o.exchange, o.direction, o.offset)].position < o.total
  }

  /** Fill a live order at a price: the order, the trade table, the position entry. */
  function Execute(s: State, id: string, price: real): (r: State)
    requires Safe(s) && Fillable(s, id) && !Outgrown(s, id)
    ensures Safe(r)
  {
    var o := s.orders[id];
    var key := MovedKey(o.symbol, o.exchange, o.direction, o.offset);
    var tradeId := Text(s.tradeId + 1);
    var trade := TradeFor(o, tradeId, price);
    var done := o.(traded := o.total, status := AllTraded);
    var p := s.positions[key];
    State(s.orderId, s.tradeId + 1,
          s.positions[key := if o.offset == Open then OpenPosition(p, o.total, price) else ClosePosition(p, o.total, price)],
          s.orders[id := done],
          s.trades[tradeId := trade],
          s.events + [GotTrade(trade)] + [GotOrder(done)])
  }

  /** A close order that outgrew its position is withdrawn; any other is executed. */
  function Fill(s: State, id: string, price: real): (r: State)
    requires Safe(s) && Fillable(s, id)
    ensures Safe(r)
  {
    if Outgrown(s, id) then Withdraw(s, id) else Execute(s, id, price)
  }

  function TickOrder(s: State, id: string, tick: Tick): (r: State)
    requires Safe(s)
    ensures Safe(r)
  {
    if id in s.orders && Hit(s.orders[id], tick) then Fill(s, id, tick.lastPrice) else s
  }

  /** Visit the orders `ids` in that order. */
  function TickOrders(s: State, ids: seq<string>, tick: Tick): (r: State)
    requires Safe(s)
    ensures Safe(r)
  {
    if ids == [] then s
    else
      var before := TickOrders(s, ids[..|ids| - 1], tick);
      TickOrder(before, ids[|ids| - 1], tick)
  }

  /** QMap iterates in key order, so "10" is visited before "2". */
  function OnGotTick(s: State, tick: Tick): (r: State)
    requires Safe(s)
    ensures Safe(r)
  {
    TickOrders(s, SortedKeys(s.orders.Keys), tick)
  }

  // ---------------------------------------------------------------- safety

  /** What keeps every look-up non-null and every division defined. No assumption
      about order ids is needed to keep it. */
  ghost predicate Safe(s: State) {
    && KeysTogether(s.positions)
    && (forall k :: k in s.positions ==> s.positions[k].position >= 0)
    && (forall id :: id in s.orders && s.orders[id].status == NotTraded ==> Backed(s, s.orders[id]))
  }

  ghost predicate KeysTogether(positions: map<string, Position>) {
    forall y, e :: LongKey(y, e) in positions <==> ShortKey(y, e) in positions
  }

  ghost predicate Backed(s: State, o: Order) {
    && LongKey(o.symbol, o.exchange) in s.positions
    && 1 <= o.total <= 500
    && (o.offset == Open || o.offset == Close)
  }

  lemma KeysApart(y1: string, e1: string, y2: string, e2: string)
    ensures LongKey(y1, e1) != ShortKey(y2, e2)
  {
    var a, b := LongKey(y1, e1), ShortKey(y2, e2);
    assert a[|a| - 1] == 'g' && b[|b| - 1] == 't';
  }

  /** Long and short entries come in pairs: both keys are the instrument plus a suffix. */
  lemma KeysPaired(y1: string, e1: string, y2: string, e2: string)
    ensures LongKey(y1, e1) == LongKey(y2, e2) <==> ShortKey(y1, e1) == ShortKey(y2, e2)
  {
    var p, q := y1 + "-" + e1, y2 + "-" + e2;
    assert LongKey(y1, e1)[..|p|] == p && ShortKey(y1, e1)[..|p|] == p;
    assert LongKey(y2, e2)[..|q|] == q && ShortKey(y2, e2)[..|q|] == q;
    assert LongKey(y1, e1) == p + "-long" && ShortKey(y1, e1) == p + "-short";
    assert LongKey(y2, e2) == q + "-long" && ShortKey(y2, e2) == q + "-short";
  }

  lemma InitialSafe()
    ensures Safe(INITIAL)
  {
  }

  lemma StartSafe(s: State, symbol: string, exchange: string)
    ensures Safe(Start(s, symbol, exchange))
  {
    forall y, e
      ensures LongKey(y, e) in Start(s, symbol, exchange).positions <==> ShortKey(y, e) in Start(s, symbol, exchange).positions
    {
      KeysPaired(y, e, symbol, exchange);
      KeysApart(y, e, symbol, exchange);
      KeysApart(symbol, exchange, y, e);
    }
  }

  /** What safety says about a live order. */
  lemma LiveOrderBacked(s: State, id: string)
    requires Safe(s) && id in s.orders && s.orders[id].status == NotTraded
    ensures var o := s.orders[id];
            && 1 <= o.total <= 500 && (o.offset == Open || o.offset == Close)
            && LongKey(o.symbol, o.exchange) in s.positions && ShortKey(o.symbol, o.exchange) in s.positions
            && s.positions[LongKey(o.symbol, o.exchange)].position >= 0
            && s.positions[ShortKey(o.symbol, o.exchange)].position >= 0
  {
  }

  lemma SafeKeys(s: State)
    requires Safe(s)
    ensures KeysTogether(s.positions)
  {
  }

  lemma AcceptedHasKey(s: State, req: OrderReq)
    requires Safe(s) && Accepted(s, req)
    ensures MovedKey(req.symbol, req.exchange, req.direction, req.offset) in s.positions
  {
  }

  lemma NoOrdersTicked(s: State, tick: Tick)
    requires Safe(s)
    ensures TickOrders(s, [], tick) == s
  {
  }

  lemma NextOrderTicked(s: State, ids: seq<string>, i: nat, tick: Tick)
    requires Safe(s) && i < |ids|
    ensures TickOrders(s, ids[..i + 1], tick) == TickOrder(TickOrders(s, ids[..i], tick), ids[i], tick)
  {
    assert ids[..i + 1][..i] == ids[..i];
  }
}
