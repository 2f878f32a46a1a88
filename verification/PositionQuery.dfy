/** Asking the exchange for positions: its callbacks, bracketed into notifications. */
module PositionQuery {

  /** Net positions are not among the directions: the program aborts while logging them. */
  datatype Direction = Unknown | Long | Short

  datatype Option<T> = None | Some(value: T)

  datatype Record = Record(
    symbol: string, direction: Direction, longFrozen: int, shortFrozen: int,
    position: int, todayPosition: int, positionCost: real)

  datatype Position = Position(
    symbol: string, direction: Direction, position: int, ydposition: int, frozen: int, price: real)

  /** One call of OnRspQryInvestorPosition. */
  datatype Callback = Callback(isError: bool, record: Option<Record>, reqId: int, isLast: bool)

  /** What the form hears; Clicked is its own button. */
  datatype Signal = Begin | Got(pos: Position) | End | Clicked

  // ---------------------------------------------------------------- what a query is to deliver

  function Translated(r: Record): Position {
    Position(r.symbol, r.direction,
             r.position, r.position - r.todayPosition,
             match r.direction { case Long => r.longFrozen case Short => r.shortFrozen case Unknown => 0 },
             if r.position > 0 then r.positionCost / (r.position as real) else 0.0)
  }

  /** The records delivered by some callbacks. */
  function Records(callbacks: seq<Callback>): (rs: seq<Record>) {
    if callbacks == [] then
      []
    else
      var c := callbacks[|callbacks| - 1];
      Records(callbacks[..|callbacks| - 1]) + if c.isError || c.record.None? then [] else [c.record.value]
  }

  function Flat(requests: seq<seq<Callback>>): seq<Callback> {
    if requests == [] then [] else Flat(requests[..|requests| - 1]) + requests[|requests| - 1]
  }

  predicate Unfinished(callbacks: seq<Callback>) {
    forall i :: 0 <= i < |callbacks| ==> !callbacks[i].isLast
  }

  predicate Finished(callbacks: seq<Callback>) {
    callbacks != [] && callbacks[|callbacks| - 1].isLast && Unfinished(callbacks[..|callbacks| - 1])
  }

  lemma FlatAppend(requests: seq<seq<Callback>>, request: seq<Callback>)
    ensures Flat(requests + [request]) == Flat(requests) + request
  {
    assert (requests + [request])[..|requests|] == requests;
  }

  lemma LastFinishes(rest: seq<Callback>, c: Callback)
    requires Unfinished(rest)
    ensures if c.isLast then Finished(rest + [c]) else Unfinished(rest + [c])
  {
    assert (rest + [c])[..|rest|] == rest;
  }

  /** The callbacks cut after every last one: the finished requests, and the one under way. With one
      query at a time these are the queries' own callbacks; only last ones cut, so where two queries
      are in flight a piece can hold records of both. */
  function Cut(callbacks: seq<Callback>): (r: (seq<seq<Callback>>, seq<Callback>))
    ensures Flat(r.0) + r.1 == callbacks
    ensures forall i :: 0 <= i < |r.0| ==> Finished(r.0[i])
    ensures Unfinished(r.1)
  {
    hide Flat, Finished, Unfinished;
    if callbacks == [] then
      NothingCut();
      ([], [])
    else
      var c := callbacks[|callbacks| - 1];
      var (requests, rest) := Cut(callbacks[..|callbacks| - 1]);
      assert callbacks == Flat(requests) + (rest + [c]);
      LastFinishes(rest, c);
      if c.isLast then
        FlatAppend(requests, rest + [c]);
        NothingCut();
        (requests + [rest + [c]], [])
      else
        (requests, rest + [c])
  }

  lemma NothingCut()
    ensures Flat([]) == [] && Unfinished([])
  {
  }

  function Gots(rs: seq<Record>): seq<Signal> {
    seq(|rs|, i requires 0 <= i < |rs| => Got(Translated(rs[i])))
  }

  /** A request without records is silent. */
  function OpenBlock(rs: seq<Record>): seq<Signal> {
    if rs == [] then [] else [Begin] + Gots(rs)
  }

  function Block(rs: seq<Record>): seq<Signal> {
    if rs == [] then [] else OpenBlock(rs) + [End]
  }

  function Blocks(requests: seq<seq<Callback>>): seq<Signal> {
    if requests == [] then
      []
    else
      Blocks(requests[..|requests| - 1]) + Block(Records(requests[|requests| - 1]))
  }

  /** The signals any series of callbacks is to cause. */
  function Promised(callbacks: seq<Callback>): seq<Signal> {
    Blocks(Cut(callbacks).0) + OpenBlock(Records(Cut(callbacks).1))
  }

  // ---------------------------------------------------------------- the bracketing

  lemma CutAppend(callbacks: seq<Callback>, c: Callback)
    ensures var (requests, rest) := Cut(callbacks);
            Cut(callbacks + [c]) == if c.isLast then (requests + [rest + [c]], []) else (requests, rest + [c])
  {
    assert (callbacks + [c])[..|callbacks|] == callbacks;
  }

  lemma RecordsAppend(callbacks: seq<Callback>, c: Callback)
    ensures Records(callbacks + [c])
         == Records(callbacks) + if c.isError || c.record.None? then [] else [c.record.value]
  {
    assert (callbacks + [c])[..|callbacks|] == callbacks;
  }

  lemma OpenBlockAppend(rs: seq<Record>, r: Record)
    ensures OpenBlock(rs + [r]) == OpenBlock(rs) + (if rs == [] then [Begin] else []) + [Got(Translated(r))]
  {
    assert Gots(rs + [r]) == Gots(rs) + [Got(Translated(r))];
    assert rs == [] ==> Gots(rs) == [];
  }

  lemma BlocksAppend(requests: seq<seq<Callback>>, request: seq<Callback>)
    ensures Blocks(requests + [request]) == Blocks(requests) + Block(Records(request))
  {
    assert (requests + [request])[..|requests|] == requests;
  }

  /** What one callback adds to the promise. */
  lemma PromisedAppend(callbacks: seq<Callback>, c: Callback)
    ensures var open := Records(Cut(callbacks).1);
            var added := if c.isError || c.record.None? then [] else [c.record.value];
            Promised(callbacks + [c]) == Promised(callbacks)
              + (if added != [] && open == [] then [Begin] else [])
              + (if added != [] then [Got(Translated(added[0]))] else [])
              + (if c.isLast && open + added != [] then [End] else [])
  {
    hide Cut, Records, OpenBlock, Blocks, Gots, Translated;
    var (requests, rest) := Cut(callbacks);
    var open := Records(rest);
    CutAppend(callbacks, c);
    RecordsAppend(rest, c);
    if !c.isError && c.record.Some? {
      OpenBlockAppend(open, c.record.value);
    } else {
      assert open + [] == open;
    }
    PromisedCases(callbacks, c);
  }

  lemma PromisedCases(callbacks: seq<Callback>, c: Callback)
    ensures var (requests, rest) := Cut(callbacks);
            var now := Records(rest + [c]);
            && Promised(callbacks) == Blocks(requests) + OpenBlock(Records(rest))
            && Promised(callbacks + [c])
               == Blocks(requests) + OpenBlock(now) + if c.isLast && now != [] then [End] else []
  {
    hide Cut, Records, OpenBlock, Blocks;
    var (requests, rest) := Cut(callbacks);
    CutAppend(callbacks, c);
    BlocksAppend(requests, rest + [c]);
    EmptyRecords();
    var now := Records(rest + [c]);
    if c.isLast {
      assert Promised(callbacks + [c]) == Blocks(requests) + Block(now);
    }
  }

  lemma EmptyRecords()
    ensures Records([]) == [] && OpenBlock([]) == []
  {
  }

  class TdSmSpi {
    var queryPositionReqId: int
    ghost var callbacks: seq<Callback>
    ghost var emitted: seq<Signal>

    /** However the callbacks came, the signals are those promised. */
    ghost predicate Valid()
      reads this
    {
      && emitted == Promised(callbacks)
      && (queryPositionReqId != 0 <==> Records(Cut(callbacks).1) != [])
    }

    constructor ()
      ensures Valid() && callbacks == [] && emitted == []
    {
      queryPositionReqId, callbacks, emitted := 0, [], [];
    }

    method OnRspQryInvestorPosition(isError: bool, record: Option<Record>, reqId: int, isLast: bool)
      returns (signals: seq<Signal>)
      requires Valid() && reqId != 0
      modifies this
      ensures Valid()
      ensures callbacks == old(callbacks) + [Callback(isError, record, reqId, isLast)]
      ensures emitted == old(emitted) + signals
    {
      hide Cut, Records, Promised, Translated;
      ghost var c := Callback(isError, record, reqId, isLast);
      PromisedAppend(callbacks, c);
      CutAppend(callbacks, c);
      RecordsAppend(Cut(callbacks).1, c);
      EmptyRecords();
      signals := [];
      if !isError && record.Some? {
        var pos := Translated(record.value);
        if queryPositionReqId == 0 {
          queryPositionReqId := reqId;
          signals := signals + [Begin];
        }
        signals := signals + [Got(pos)];
      }
      if isLast {
        if queryPositionReqId != 0 {
          queryPositionReqId := 0;
          signals := signals + [End];
        }
      }
      callbacks, emitted := callbacks + [c], emitted + signals;
    }
  }
}
