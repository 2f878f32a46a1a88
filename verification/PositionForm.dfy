/** The position form: per key the sums of what the last query delivered, in whatever order. */
module PositionForm {
  import opened Decimal
  import opened PositionQuery
  import OrderId

  function DirectionNumber(d: Direction): int {
    match d case Unknown => 0 case Long => 1 case Short => 2
  }

  type Contracts = map<string, string>

  /** The exchange comes from the contract, the position does not carry it. */
  function Key(contracts: Contracts, symbol: string, direction: Direction): string {
    symbol + "." + (if symbol in contracts then contracts[symbol] else "") + "." + Text(DirectionNumber(direction))
  }

  function KeyOf(contracts: Contracts, p: Position): string {
    Key(contracts, p.symbol, p.direction)
  }

  /** Symbols without a dot: the key tells symbol and direction. */
  lemma KeyInjective(contracts: Contracts, p: Position, q: Position)
    requires '.' !in p.symbol && '.' !in q.symbol && KeyOf(contracts, p) == KeyOf(contracts, q)
    ensures p.symbol == q.symbol && p.direction == q.direction
  {
    hide Text, OrderId.Split;
    var x := if p.symbol in contracts then contracts[p.symbol] else "";
    var y := if q.symbol in contracts then contracts[q.symbol] else "";
    var dp, dq := Text(DirectionNumber(p.direction)), Text(DirectionNumber(q.direction));
    assert KeyOf(contracts, p) == p.symbol + "." + (x + "." + dp);
    assert KeyOf(contracts, q) == q.symbol + "." + (y + "." + dq);
    OrderId.SplitDot(p.symbol, x + "." + dp);
    OrderId.SplitDot(q.symbol, y + "." + dq);
    assert p.symbol == ([p.symbol] + OrderId.Split(x + "." + dp))[0] == q.symbol;
    var n := |p.symbol + "." + x + "."|;
    assert dp == KeyOf(contracts, p)[n..] && dq == KeyOf(contracts, q)[n..];
    TextInjective(DirectionNumber(p.direction), DirectionNumber(q.direction));
  }

  // ---------------------------------------------------------------- sums per key

  datatype Totals = Totals(position: int, ydposition: int, frozen: int, cost: real)

  function Plus(t: Totals, p: Position): Totals {
    Totals(t.position + p.position, t.ydposition + p.ydposition, t.frozen + p.frozen,
           t.cost + p.price * (p.position as real))
  }

  function Total(contracts: Contracts, ps: seq<Position>, key: string): Totals {
    if ps == [] then
      Totals(0, 0, 0, 0.0)
    else
      var t := Total(contracts, ps[..|ps| - 1], key);
      var p := ps[|ps| - 1];
      if KeyOf(contracts, p) == key then Plus(t, p) else t
  }

  /** What the exchange's records amount to: 0 <= TodayPosition <= Position, and a price only
      where there is a position. */
  predicate Sound(p: Position) {
    0 <= p.ydposition <= p.position && (p.position == 0 ==> p.price == 0.0)
  }

  predicate AllSound(ps: seq<Position>) {
    forall i :: 0 <= i < |ps| ==> Sound(ps[i])
  }

  lemma TranslatedSound(r: Record)
    requires 0 <= r.todayPosition <= r.position
    ensures Sound(Translated(r))
    ensures Translated(r).price * (r.position as real) == if r.position > 0 then r.positionCost else 0.0
  {
  }

  lemma {:induction false} TotalSound(contracts: Contracts, ps: seq<Position>, key: string)
    requires AllSound(ps)
    ensures var t := Total(contracts, ps, key);
            0 <= t.ydposition <= t.position && (t.position == 0 ==> t.cost == 0.0)
  {
    if ps != [] {
      TotalSound(contracts, ps[..|ps| - 1], key);
      assert Sound(ps[|ps| - 1]);
    }
  }

  /** An entry that stands for totals t. */
  predicate StandsFor(contracts: Contracts, entry: Position, key: string, t: Totals) {
    && KeyOf(contracts, entry) == key
    && entry.position == t.position && entry.ydposition == t.ydposition && entry.frozen == t.frozen
    && (if t.position > 0 then entry.price * (t.position as real) == t.cost else entry.price == 0.0)
  }

  predicate EntryIs(contracts: Contracts, entries: map<string, Position>, key: string, t: Totals) {
    if t.position == 0 && t.frozen == 0 then
      key !in entries
    else
      key in entries && StandsFor(contracts, entries[key], key, t)
  }

  /** The map holds the sums of ps, and no empty entry. */
  ghost predicate Holds(contracts: Contracts, entries: map<string, Position>, ps: seq<Position>) {
    && (forall key :: EntryIs(contracts, entries, key, Total(contracts, ps, key)))
    && (Plain(ps) ==> forall key :: key in entries ==> '.' !in entries[key].symbol)
  }

  predicate Plain(ps: seq<Position>) {
    forall i :: 0 <= i < |ps| ==> '.' !in ps[i].symbol
  }

  /** The average price weighted by position. */
  function MeanPrice(a: Position, b: Position): real
    requires a.position + b.position > 0
  {
    (a.price * (a.position as real) + b.price * (b.position as real)) / ((a.position + b.position) as real)
  }

  /** Merging a position into the entry for its key. */
  function Combined(entries: map<string, Position>, key: string, newPos: Position): Position {
    if key !in entries then
      newPos
    else
      var oldPos := entries[key];
      var position := oldPos.position + newPos.position;
      oldPos.(position := position,
              ydposition := oldPos.ydposition + newPos.ydposition,
              frozen := oldPos.frozen + newPos.frozen,
              price := if position > 0 then MeanPrice(oldPos, newPos) else oldPos.price)
  }

  /** An entry left empty is dropped. */
  function Merged(contracts: Contracts, entries: map<string, Position>, newPos: Position): map<string, Position> {
    var key := KeyOf(contracts, newPos);
    var comb := Combined(entries, key, newPos);
    if comb.position == 0 && comb.frozen == 0 then entries - {key} else entries[key := comb]
  }

  lemma CombinedStandsFor(contracts: Contracts, entries: map<string, Position>, newPos: Position, t: Totals)
    requires Sound(newPos) && 0 <= t.ydposition <= t.position && (t.position == 0 ==> t.cost == 0.0)
    requires EntryIs(contracts, entries, KeyOf(contracts, newPos), t)
    ensures StandsFor(contracts, Combined(entries, KeyOf(contracts, newPos), newPos), KeyOf(contracts, newPos),
                      Plus(t, newPos))
  {
    hide KeyOf;
    var key := KeyOf(contracts, newPos);
    if key in entries {
      var old' := entries[key];
      assert old'.price * (old'.position as real) == t.cost;
      SameKey(contracts, entries, key, newPos);
    }
  }

  lemma SameKey(contracts: Contracts, entries: map<string, Position>, key: string, newPos: Position)
    requires key in entries
    ensures KeyOf(contracts, Combined(entries, key, newPos)) == KeyOf(contracts, entries[key])
  {
  }

  lemma TotalAppend(contracts: Contracts, ps: seq<Position>, p: Position, key: string)
    ensures Total(contracts, ps + [p], key)
         == if KeyOf(contracts, p) == key then Plus(Total(contracts, ps, key), p) else Total(contracts, ps, key)
  {
    assert (ps + [p])[..|ps|] == ps;
  }

  // ---------------------------------------------------------------- what the form has heard

  /** The positions since the entries were last cleared. */
  function Current(heard: seq<Signal>): (ps: seq<Position>) {
    if heard == [] then
      []
    else
      var before := Current(heard[..|heard| - 1]);
      match heard[|heard| - 1]
      case Begin => []
      case Clicked => []
      case Got(p) => before + [p]
      case End => before
  }

  lemma CurrentAppend(heard: seq<Signal>, s: Signal)
    ensures Current(heard + [s])
         == match s case Begin => [] case Clicked => [] case Got(p) => Current(heard) + [p] case End => Current(heard)
  {
    assert (heard + [s])[..|heard|] == heard;
  }

  class PositionForm {
    const contracts: Contracts
    var positions: map<string, Position>
    var querying: bool
    ghost var heard: seq<Signal>

    ghost predicate Valid()
      reads this
    {
      AllSound(Current(heard)) ==> Holds(contracts, positions, Current(heard))
    }

    constructor (contracts: Contracts)
      ensures Valid() && this.contracts == contracts && heard == [] && positions == map[]
    {
      this.contracts := contracts;
      positions, querying, heard := map[], false, [];
    }

    /** A position for which there is no contract aborts the program. */
    method OnGotPosition(newPos: Position)
      requires Valid() && newPos.symbol in contracts
      modifies this
      ensures positions == Merged(contracts, old(positions), newPos)
      ensures Valid() && heard == old(heard) + [Got(newPos)] && querying == old(querying)
    {
      hide Total, KeyOf, Current, MeanPrice, Holds;
      var newKey := KeyOf(contracts, newPos);
      var combPos := newPos;
      if newKey in positions {
        var oldPos := positions[newKey];
        combPos := oldPos;
        combPos := combPos.(position := oldPos.position + newPos.position);
        combPos := combPos.(ydposition := oldPos.ydposition + newPos.ydposition);
        combPos := combPos.(frozen := oldPos.frozen + newPos.frozen);
        if combPos.position > 0 {
          combPos := combPos.(price := MeanPrice(oldPos, newPos));
        }
      }
      assert combPos == Combined(positions, newKey, newPos);
      if AllSound(Current(heard) + [newPos]) {
        assert (Current(heard) + [newPos])[|Current(heard)|] == newPos;
        assert (Current(heard) + [newPos])[..|Current(heard)|] == Current(heard);
        HoldsAfter(contracts, positions, Current(heard), newPos);
      }
      CurrentAppend(heard, Got(newPos));
      assert newKey !in positions ==> positions - {newKey} == positions;
      if combPos.position == 0 && combPos.frozen == 0 {
        if newKey in positions {
          positions := positions - {newKey};
        }
      } else {
        positions := positions[newKey := combPos];
      }
      heard := heard + [Got(newPos)];
    }

    method OnGotNotification(note: Signal)
      requires Valid() && (note.Begin? || note.End?)
      modifies this
      ensures Valid() && heard == old(heard) + [note] && querying == note.Begin?
    {
      hide Current;
      CurrentAppend(heard, note);
      if note.Begin? {
        positions := map[];
        querying := true;
      } else {
        querying := false;
      }
      heard := heard + [note];
    }

    method OnClicked()
      requires Valid()
      modifies this
      ensures Valid() && heard == old(heard) + [Clicked] && positions == map[] && querying == old(querying)
    {
      hide Current;
      CurrentAppend(heard, Clicked);
      positions := map[];
      heard := heard + [Clicked];
    }
  }

  /** The map after merging one position holds one position more. */
  lemma HoldsAfter(contracts: Contracts, entries: map<string, Position>, ps: seq<Position>, p: Position)
    requires AllSound(ps) && Sound(p) && Holds(contracts, entries, ps)
    ensures AllSound(ps + [p]) && Holds(contracts, Merged(contracts, entries, p), ps + [p])
  {
    hide Total, KeyOf, Combined, StandsFor;
    var key := KeyOf(contracts, p);
    var comb := Combined(entries, key, p);
    var after := Merged(contracts, entries, p);
    forall k ensures EntryIs(contracts, after, k, Total(contracts, ps + [p], k)) {
      TotalAppend(contracts, ps, p, k);
      assert EntryIs(contracts, entries, k, Total(contracts, ps, k));
      if k == key {
        TotalSound(contracts, ps, k);
        CombinedStandsFor(contracts, entries, p, Total(contracts, ps, k));
        StandsForNumbers(contracts, comb, k, Total(contracts, ps + [p], k));
      }
    }
    if Plain(ps + [p]) {
      assert (ps + [p])[..|ps|] == ps && (ps + [p])[|ps|] == p;
      assert Plain(ps);
      assert '.' !in comb.symbol by { SameSymbol(entries, key, p); }
    }
  }

  lemma SameSymbol(entries: map<string, Position>, key: string, newPos: Position)
    ensures Combined(entries, key, newPos).symbol == if key in entries then entries[key].symbol else newPos.symbol
  {
  }

  lemma StandsForNumbers(contracts: Contracts, entry: Position, key: string, t: Totals)
    requires StandsFor(contracts, entry, key, t)
    ensures entry.position == t.position && entry.frozen == t.frozen
  {
  }

  // ---------------------------------------------------------------- the order does not matter

  lemma PlusSwap(t: Totals, p: Position, q: Position)
    ensures Plus(Plus(t, p), q) == Plus(Plus(t, q), p)
  {
  }

  lemma {:induction false} TotalWithout(contracts: Contracts, ps: seq<Position>, i: nat, key: string)
    requires i < |ps|
    ensures Total(contracts, ps, key) == Total(contracts, ps[..i] + ps[i + 1..] + [ps[i]], key)
  {
    hide Total, Plus, KeyOf;
    var n := |ps|;
    var p, last, without := ps[i], ps[n - 1], ps[..i] + ps[i + 1..];
    if i < n - 1 {
      var front := ps[..n - 1];
      var inner := front[..i] + front[i + 1..];
      TotalWithout(contracts, front, i, key);
      assert ps == front + [last] && without == inner + [last];
      assert front[i] == p;
      TotalAppend(contracts, front, last, key);
      TotalAppend(contracts, inner, p, key);
      TotalAppend(contracts, inner, last, key);
      TotalAppend(contracts, without, p, key);
      PlusSwap(Total(contracts, inner, key), p, last);
    } else {
      assert without + [p] == ps;
    }
  }

  lemma MultisetWithout(ps: seq<Position>, i: nat)
    requires i < |ps|
    ensures multiset(ps[..i] + ps[i + 1..]) == multiset(ps) - multiset{ps[i]}
  {
    assert ps == ps[..i] + [ps[i]] + ps[i + 1..];
  }

  lemma {:induction false} TotalPermuted(contracts: Contracts, ps: seq<Position>, qs: seq<Position>, key: string)
    requires multiset(ps) == multiset(qs)
    ensures Total(contracts, ps, key) == Total(contracts, qs, key)
    decreases |ps|
  {
    hide KeyOf, Plus, Total;
    assert |ps| == |multiset(ps)| == |multiset(qs)| == |qs|;
    if ps != [] {
      var p, front := ps[|ps| - 1], ps[..|ps| - 1];
      assert ps == front + [p];
      assert p in multiset(qs);
      var i :| 0 <= i < |qs| && qs[i] == p;
      var without := qs[..i] + qs[i + 1..];
      MultisetWithout(qs, i);
      MultisetWithout(ps, |ps| - 1);
      assert front + ps[|ps|..] == front;
      TotalPermuted(contracts, front, without, key);
      TotalWithout(contracts, qs, i, key);
      TotalAppend(contracts, front, p, key);
      TotalAppend(contracts, without, p, key);
    } else {
      assert qs == [];
    }
  }

  lemma SamePrice(a: real, b: real, n: real)
    requires n > 0.0 && a * n == b * n
    ensures a == b
  {
    assert (a - b) * n == 0.0;
  }

  lemma EntryUnique(contracts: Contracts, a: Position, b: Position, key: string, t: Totals)
    requires StandsFor(contracts, a, key, t) && StandsFor(contracts, b, key, t)
    requires '.' !in a.symbol && '.' !in b.symbol
    ensures a == b
  {
    hide KeyOf;
    KeyInjective(contracts, a, b);
    if t.position > 0 {
      SamePrice(a.price, b.price, t.position as real);
    }
  }

  /** The same records in any order leave the same map. */
  lemma OrderDoesNotMatter(contracts: Contracts, m: map<string, Position>, ps: seq<Position>,
                           m': map<string, Position>, qs: seq<Position>)
    requires Holds(contracts, m, ps) && Holds(contracts, m', qs) && multiset(ps) == multiset(qs)
    requires Plain(ps)
    ensures m == m'
  {
    hide Total, StandsFor;
    assert Plain(qs) by {
      forall i | 0 <= i < |qs| ensures '.' !in qs[i].symbol {
        assert qs[i] in multiset(ps);
      }
    }
    forall key ensures key in m <==> key in m'
               ensures key in m ==> m[key] == m'[key]
    {
      TotalPermuted(contracts, ps, qs, key);
      var t := Total(contracts, ps, key);
      assert EntryIs(contracts, m, key, t) && EntryIs(contracts, m', key, t);
      if key in m {
        EntryUnique(contracts, m[key], m'[key], key, t);
      }
    }
  }

  // ---------------------------------------------------------------- from callbacks to the form

  function Positions(rs: seq<Record>): seq<Position> {
    seq(|rs|, i requires 0 <= i < |rs| => Translated(rs[i]))
  }

  /** The records of the last request that delivered any. */
  function LastOf(requests: seq<seq<Callback>>): seq<Record> {
    if requests == [] then
      []
    else
      var rs := Records(requests[|requests| - 1]);
      if rs != [] then rs else LastOf(requests[..|requests| - 1])
  }

  function LastDelivered(callbacks: seq<Callback>): seq<Record> {
    var (requests, rest) := Cut(callbacks);
    if Records(rest) != [] then Records(rest) else LastOf(requests)
  }

  lemma {:induction false} CurrentOfBlock(before: seq<Signal>, rs: seq<Record>)
    requires rs != []
    ensures Current(before + OpenBlock(rs)) == Positions(rs)
    ensures Current(before + Block(rs)) == Positions(rs)
  {
    hide Translated, Current;
    var n := |rs|;
    var front := rs[..n - 1];
    assert rs == front + [rs[n - 1]];
    var signals := before + OpenBlock(front) + if front == [] then [Begin] else [];
    CurrentAppend(before, Begin);
    if front != [] {
      CurrentOfBlock(before, front);
      assert signals == before + OpenBlock(front);
    } else {
      assert signals == before + [Begin];
    }
    OpenBlockAppend(front, rs[n - 1]);
    assert before + OpenBlock(rs) == signals + [Got(Translated(rs[n - 1]))];
    CurrentAppend(signals, Got(Translated(rs[n - 1])));
    assert Positions(rs) == Positions(front) + [Translated(rs[n - 1])];
    CurrentAppend(before + OpenBlock(rs), End);
    assert before + Block(rs) == (before + OpenBlock(rs)) + [End];
  }

  lemma {:induction false} CurrentOfBlocks(requests: seq<seq<Callback>>)
    ensures Current(Blocks(requests)) == Positions(LastOf(requests))
  {
    hide Records, Positions, OpenBlock, Current;
    if requests == [] {
      assert Positions([]) == [] && Current([]) == [] by { EmptyCurrent(); }
    } else {
      var before := Blocks(requests[..|requests| - 1]);
      var rs := Records(requests[|requests| - 1]);
      if rs != [] {
        CurrentOfBlock(before, rs);
      } else {
        CurrentOfBlocks(requests[..|requests| - 1]);
        assert before + [] == before;
      }
    }
  }

  lemma EmptyCurrent()
    ensures Positions([]) == [] && Current([]) == []
  {
  }

  /** Whatever the callbacks, a form that heard all they caused holds the records of the last
      request that delivered any. */
  lemma FormHoldsLastDelivered(callbacks: seq<Callback>)
    ensures Current(Promised(callbacks)) == Positions(LastDelivered(callbacks))
  {
    hide Cut, Records, Blocks, Current, Positions, LastOf;
    var (requests, rest) := Cut(callbacks);
    if Records(rest) != [] {
      CurrentOfBlock(Blocks(requests), Records(rest));
    } else {
      CurrentOfBlocks(requests);
      assert Blocks(requests) + [] == Blocks(requests);
    }
  }

  function RecordPlus(t: Totals, r: Record): Totals {
    Totals(t.position + r.position,
           t.ydposition + (r.position - r.todayPosition),
           t.frozen + (match r.direction { case Long => r.longFrozen case Short => r.shortFrozen case Unknown => 0 }),
           t.cost + if r.position > 0 then r.positionCost else 0.0)
  }

  /** The sums the exchange's records amount to, per symbol and direction. */
  function RecordTotal(rs: seq<Record>, symbol: string, direction: Direction): Totals {
    if rs == [] then
      Totals(0, 0, 0, 0.0)
    else
      var t := RecordTotal(rs[..|rs| - 1], symbol, direction);
      var r := rs[|rs| - 1];
      if r.symbol == symbol && r.direction == direction then RecordPlus(t, r) else t
  }

  lemma PlusTranslated(t: Totals, r: Record)
    requires 0 <= r.todayPosition <= r.position
    ensures Plus(t, Translated(r)) == RecordPlus(t, r)
    ensures Translated(r).symbol == r.symbol && Translated(r).direction == r.direction
  {
    TranslatedSound(r);
  }

  lemma {:induction false} TotalOfRecords(contracts: Contracts, rs: seq<Record>, symbol: string, direction: Direction)
    requires forall i :: 0 <= i < |rs| ==> 0 <= rs[i].todayPosition <= rs[i].position && '.' !in rs[i].symbol
    requires '.' !in symbol
    ensures Total(contracts, Positions(rs), Key(contracts, symbol, direction)) == RecordTotal(rs, symbol, direction)
  {
    hide Key, Plus, RecordPlus, Translated;
    if rs != [] {
      var front, r := rs[..|rs| - 1], rs[|rs| - 1];
      TotalOfRecords(contracts, front, symbol, direction);
      assert Positions(rs) == Positions(front) + [Translated(r)];
      hide Total, Positions;
      TotalAppend(contracts, Positions(front), Translated(r), Key(contracts, symbol, direction));
      PlusTranslated(RecordTotal(front, symbol, direction), r);
      SameKeyIff(contracts, Translated(r), symbol, direction);
    }
  }

  lemma SameKeyIff(contracts: Contracts, p: Position, symbol: string, direction: Direction)
    requires '.' !in p.symbol && '.' !in symbol
    ensures KeyOf(contracts, p) == Key(contracts, symbol, direction) <==> p.symbol == symbol && p.direction == direction
  {
    if KeyOf(contracts, p) == Key(contracts, symbol, direction) {
      KeyInjective(contracts, p, Position(symbol, direction, 0, 0, 0, 0.0));
    }
  }

  /** The form's answer for a symbol and direction, straight from the exchange's records. */
  lemma FormShowsRecords(contracts: Contracts, entries: map<string, Position>, callbacks: seq<Callback>,
                         symbol: string, direction: Direction)
    requires Holds(contracts, entries, Current(Promised(callbacks)))
    requires forall r <- LastDelivered(callbacks) :: 0 <= r.todayPosition <= r.position && '.' !in r.symbol
    requires '.' !in symbol
    ensures EntryIs(contracts, entries, Key(contracts, symbol, direction),
                    RecordTotal(LastDelivered(callbacks), symbol, direction))
  {
    hide Current, Promised, LastDelivered, Total, RecordTotal, Positions, EntryIs, Key;
    FormHoldsLastDelivered(callbacks);
    TotalOfRecords(contracts, LastDelivered(callbacks), symbol, direction);
  }

  // ---------------------------------------------------------------- the form's own button

  /** What was heard, without the button's clicks. */
  function Unclicked(heard: seq<Signal>): (signals: seq<Signal>) {
    if heard == [] then
      []
    else
      Unclicked(heard[..|heard| - 1]) + if heard[|heard| - 1].Clicked? then [] else [heard[|heard| - 1]]
  }

  /** The button cleared away positions since the last BEGIN. */
  predicate Lost(heard: seq<Signal>) {
    heard != [] &&
    match heard[|heard| - 1]
    case Begin => false
    case Clicked => Lost(heard[..|heard| - 1]) || Current(heard[..|heard| - 1]) != []
    case _ => Lost(heard[..|heard| - 1])
  }

  /** What the form holds is the end of what it would hold without the clicks, and all of it exactly
      if nothing was cleared away. */
  lemma {:induction false} ClicksClear(heard: seq<Signal>)
    ensures var (held, whole) := (Current(heard), Current(Unclicked(heard)));
            && |held| <= |whole| && held == whole[|whole| - |held|..]
            && (held == whole <==> !Lost(heard))
  {
    if heard != [] {
      var front, s := heard[..|heard| - 1], heard[|heard| - 1];
      ClicksClear(front);
      if !s.Clicked? {
        CurrentAppend(Unclicked(front), s);
      } else {
        assert Unclicked(front) + [] == Unclicked(front);
      }
    }
  }

  /** The two together: a form that heard all that was emitted, and whose button cleared nothing away
      since the last BEGIN, shows the exchange's records. */
  lemma FormAgreesWithExchange(spi: TdSmSpi, form: PositionForm, symbol: string, direction: Direction)
    requires spi.Valid() && form.Valid() && Unclicked(form.heard) == spi.emitted && !Lost(form.heard)
    requires forall r <- LastDelivered(spi.callbacks) :: 0 <= r.todayPosition <= r.position && '.' !in r.symbol
    requires '.' !in symbol
    ensures EntryIs(form.contracts, form.positions, Key(form.contracts, symbol, direction),
                    RecordTotal(LastDelivered(spi.callbacks), symbol, direction))
  {
    hide Current, Promised, LastDelivered, Total, RecordTotal, Positions, EntryIs, Key, Holds, Translated, Sound,
         Unclicked, Lost;
    ClicksClear(form.heard);
    FormHoldsLastDelivered(spi.callbacks);
    RecordsSound(LastDelivered(spi.callbacks));
    FormShowsRecords(form.contracts, form.positions, spi.callbacks, symbol, direction);
  }

  /** Where it did clear, the form shows the sums of the records that came after the click: of the
      last of those delivered, the last few. */
  lemma FormShowsTheRest(spi: TdSmSpi, form: PositionForm, symbol: string, direction: Direction) returns (rest: seq<Record>)
    requires spi.Valid() && form.Valid() && Unclicked(form.heard) == spi.emitted
    requires forall r <- LastDelivered(spi.callbacks) :: 0 <= r.todayPosition <= r.position && '.' !in r.symbol
    requires '.' !in symbol
    ensures |rest| <= |LastDelivered(spi.callbacks)|
    ensures rest == LastDelivered(spi.callbacks)[|LastDelivered(spi.callbacks)| - |rest|..]
    ensures rest == LastDelivered(spi.callbacks) <==> !Lost(form.heard)
    ensures EntryIs(form.contracts, form.positions, Key(form.contracts, symbol, direction),
                    RecordTotal(rest, symbol, direction))
  {
    hide Current, Promised, LastDelivered, Total, RecordTotal, EntryIs, Key, Holds, Translated, Sound,
         Unclicked, Lost;
    ClicksClear(form.heard);
    FormHoldsLastDelivered(spi.callbacks);
    var rs, n := LastDelivered(spi.callbacks), |Current(form.heard)|;
    rest := rs[|rs| - n..];
    assert Current(form.heard) == Positions(rest);
    assert forall r :: r in rest ==> r in rs;
    RecordsSound(rest);
    TotalOfRecords(form.contracts, rest, symbol, direction);
    EntryHeld(form.contracts, form.positions, Current(form.heard), Key(form.contracts, symbol, direction));
  }

  lemma EntryHeld(contracts: Contracts, entries: map<string, Position>, ps: seq<Position>, key: string)
    requires Holds(contracts, entries, ps)
    ensures EntryIs(contracts, entries, key, Total(contracts, ps, key))
  {
    hide EntryIs, Total;
  }

  /** A click while records arrive: the exchange sent two, the form is left with the second. */
  lemma ClickWhileArriving(a: Record, b: Record)
    ensures var callbacks := [Callback(false, Some(a), 1, false), Callback(false, Some(b), 1, true)];
            var heard := [Begin, Got(Translated(a)), Clicked, Got(Translated(b)), End];
            && Unclicked(heard) == Promised(callbacks) && Lost(heard)
            && Current(heard) == [Translated(b)]
            && Current(Unclicked(heard)) == [Translated(a), Translated(b)]
  {
    hide Translated, Promised, Current, Unclicked, Lost;
    var x, y := Got(Translated(a)), Got(Translated(b));
    var c, d := Callback(false, Some(a), 1, false), Callback(false, Some(b), 1, true);
    TwoPromised(a, b);
    var h0: seq<Signal> := [];
    var h1 := h0 + [Begin];
    var h2 := h1 + [x];
    var h3 := h2 + [Clicked];
    var h4 := h3 + [y];
    var h5 := h4 + [End];
    assert h5 == [Begin, x, Clicked, y, End];
    NothingHeard();
    Heard(h0, Begin);
    Heard(h1, x);
    Heard(h2, Clicked);
    Heard(h3, y);
    Heard(h4, End);
    var u1 := h0 + [Begin];
    var u2 := u1 + [x];
    var u3 := u2 + [y];
    var u4 := u3 + [End];
    assert Unclicked(h5) == u4 == [Begin, x, y, End];
    Heard(u1, x);
    Heard(u2, y);
    Heard(u3, End);
  }

  lemma NothingHeard()
    ensures Current([]) == [] && Unclicked([]) == [] && !Lost([])
  {
  }

  /** What one more signal does. */
  lemma Heard(heard: seq<Signal>, s: Signal)
    ensures Current(heard + [s])
         == match s case Begin => [] case Clicked => [] case Got(p) => Current(heard) + [p] case End => Current(heard)
    ensures Unclicked(heard + [s]) == if s.Clicked? then Unclicked(heard) else Unclicked(heard) + [s]
    ensures Lost(heard + [s]) == (!s.Begin? && (Lost(heard) || (s.Clicked? && Current(heard) != [])))
  {
    assert (heard + [s])[..|heard|] == heard;
    assert Unclicked(heard) + [] == Unclicked(heard);
  }

  lemma TwoPromised(a: Record, b: Record)
    ensures Promised([Callback(false, Some(a), 1, false), Callback(false, Some(b), 1, true)])
         == [Begin, Got(Translated(a)), Got(Translated(b)), End]
  {
    hide Translated, Promised, Cut, Records;
    var c, d := Callback(false, Some(a), 1, false), Callback(false, Some(b), 1, true);
    NothingPromised();
    PromisedAppend([], c);
    PromisedAppend([c], d);
    CutAppend([], c);
    RecordsAppend([], c);
    assert [] + [c] == [c] && [c] + [d] == [c, d];
    assert [] + [a] == [a];
  }

  lemma NothingPromised()
    ensures Promised([]) == [] && Cut([]) == ([], []) && Records([]) == []
  {
  }

  lemma RecordsSound(rs: seq<Record>)
    requires forall r <- rs :: 0 <= r.todayPosition <= r.position
    ensures AllSound(Positions(rs))
  {
    hide Translated, Sound;
    forall i | 0 <= i < |rs| ensures Sound(Positions(rs)[i]) {
      TranslatedSound(rs[i]);
    }
  }
}
