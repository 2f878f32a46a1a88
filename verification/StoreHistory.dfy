/** Every sequence of service operations leaves a well-formed, bracketed store whose
    contract list is the history of insertions and deletions. */
module StoreHistory {
  import opened Lex
  import opened StoreKeys
  import opened Store
  import opened StoreMeaning
  import opened StoreRuns

  datatype Op = AddTick(record: Record) | AddBar(record: Record) | AddContract(record: Record)
              | DropTicks(req: RangeReq) | DropBars(req: RangeReq, period: Period)
              | DropContract(symbol: string, exchange: string) | CleanAll

  /** Insertions carry readable fields, or fields so incomplete that the service ignores them;
      deletions may ask for anything. */
  predicate GoodOp(op: Op) {
    match op
    case AddTick(r) => r.TickRecord? && (CompleteRecord(r) ==> GoodRecord(r))
    case AddBar(r) => r.BarRecord? && (CompleteRecord(r) && r.period != UnknownPeriod ==> GoodRecord(r))
    case AddContract(r) => r.ContractRecord? && (r.symbol != [] && r.exchange != [] && r.name != [] ==> GoodContract(r))
    case _ => true
  }

  predicate CompleteRecord(r: Record)
    requires IsSeriesRecord(r)
  {
    r.symbol != [] && r.exchange != [] && r.date != [] && r.time != []
  }

  ghost function Apply(db: Db, op: Op): Db
    requires GoodOp(op)
  {
    match op
    case AddTick(r) => InsertTick(db, r)
    case AddBar(r) => InsertBar(db, r)
    case AddContract(r) => InsertContract(db, r)
    case DropTicks(req) => DeleteTick(db, req)
    case DropBars(req, period) => DeleteBar(db, req, period)
    case DropContract(y, e) => DeleteContract(db, y, e)
    case CleanAll => DbInit(map[])
  }

  ghost function After(ops: seq<Op>): Db
    requires forall op :: op in ops ==> GoodOp(op)
  {
    if ops == [] then DbInit(map[]) else Apply(After(ops[..|ops| - 1]), ops[|ops| - 1])
  }

  /** The contracts inserted and not deleted since the last clean. */
  function Live(ops: seq<Op>): map<(string, string), Record>
    requires forall op :: op in ops ==> GoodOp(op)
  {
    if ops == [] then map[] else LiveAfter(Live(ops[..|ops| - 1]), ops[|ops| - 1])
  }

  function LiveAfter(live: map<(string, string), Record>, op: Op): map<(string, string), Record>
    requires GoodOp(op)
  {
    match op
    case AddContract(r) => if GoodContract(r) then live[(r.symbol, r.exchange) := r] else live
    case DropContract(y, e) => if y == "*" && e == "*" then map[] else live - {(y, e)}
    case CleanAll => map[]
    case _ => live
  }

  /** The contracts inserted since the last clean, deleted or not. */
  function Known(ops: seq<Op>): set<(string, string)>
    requires forall op :: op in ops ==> GoodOp(op)
  {
    if ops == [] then {} else KnownAfter(Known(ops[..|ops| - 1]), ops[|ops| - 1])
  }

  function KnownAfter(known: set<(string, string)>, op: Op): set<(string, string)>
    requires GoodOp(op)
  {
    match op
    case AddContract(r) => if GoodContract(r) then known + {(r.symbol, r.exchange)} else known
    case CleanAll => {}
    case _ => known
  }

  // ---------------------------------------------------------------- invariant

  ghost predicate Bracketed(db: Db, symbol: string, exchange: string) {
    && FirstKey(TickBase(symbol, exchange)) in db && LastKey(TickBase(symbol, exchange)) in db
    && forall p: Period :: FirstKey(BarBase(symbol, exchange, p)) in db && LastKey(BarBase(symbol, exchange, p)) in db
  }

  ghost predicate StoreInv(db: Db) {
    && WellFormed(db)
    && CONTRACT_FIRST in db && db[CONTRACT_FIRST] == Empty
    && CONTRACT_LAST in db && db[CONTRACT_LAST] == Empty
  }

  /** The series of these contracts have their sentinels, those of ticks and of every period. */
  ghost predicate AllBracketed(db: Db, known: set<(string, string)>) {
    forall p :: p in known ==> GoodSymbol(p.0) && GoodExchange(p.1) && Bracketed(db, p.0, p.1)
  }

  ghost predicate Agrees(db: Db, live: map<(string, string), Record>) {
    && (forall p :: p in live ==>
          && GoodContract(live[p]) && p == (live[p].symbol, live[p].exchange)
          && ContractKey(p.0, p.1) in db && db[ContractKey(p.0, p.1)] == live[p])
    && (forall k :: k in db && db[k].ContractRecord? ==>
          (db[k].symbol, db[k].exchange) in live && live[(db[k].symbol, db[k].exchange)] == db[k])
  }

  // ---------------------------------------------------------------- which key is which

  lemma ContractInitial(symbol: string, exchange: string)
    ensures |ContractKey(symbol, exchange)| > 8 && ContractKey(symbol, exchange)[0] == 'c' && ContractKey(symbol, exchange)[8] == '-'
  {
  }

  /** A readable contract key is not the key of any other pair of texts. */
  lemma {:induction false} ContractKeyInjective(y1: string, e1: string, y2: string, e2: string)
    requires GoodSymbol(y1) && GoodExchange(e1) && ContractKey(y1, e1) == ContractKey(y2, e2)
    ensures y1 == y2 && e1 == e2
  {
    assert ContractKey(y1, e1)[9..] == y1 + "-" + e1 && ContractKey(y2, e2)[9..] == y2 + "-" + e2;
    NoDashes(y1);
    NoDashes(e1);
    DashesAdd(y1 + "-", e1);
    DashesAdd(y1, "-");
    DashesAdd(y2 + "-", e2);
    DashesAdd(y2, "-");
    ZeroDashes(y2);
    SplitUnique(y1, e1, y2, e2);
  }

  lemma {:induction false} ZeroDashes(s: string)
    requires Dashes(s) == 0
    ensures NoDash(s)
  {
    if s != [] {
      ZeroDashes(s[1..]);
      assert s == [s[0]] + s[1..];
    }
  }

  /** Keys of the series start with 't' or 'b', those of the contracts with 'c'. */
  lemma SeriesInitial(k: string, v: Record)
    requires Shape(k, v) && (IsSeriesRecord(v) || IsSentinel(k))
    ensures k != [] && (k[0] == 't' || k[0] == 'b')
  {
    hide BaseOf;
    if IsSentinel(k) {
      BaseInitial(k[..|k| - 1]);
    } else {
      BaseIsGood(v);
      BaseInitial(BaseOf(v));
      KeyShape(v);
    }
  }

  /** In a well-formed store the keys between the contract sentinels are those of the contracts. */
  lemma BetweenContracts(db: Db, k: string)
    requires WellFormed(db) && k in db
    ensures db[k].ContractRecord? <==> Less(CONTRACT_FIRST, k) && Less(k, CONTRACT_LAST)
    ensures db[k].ContractRecord? ==> k == ContractKey(db[k].symbol, db[k].exchange) && GoodContract(db[k])
  {
    assert Shape(k, db[k]);
    LessIrreflexive(k);
    if db[k].ContractRecord? {
      ContractBracketed(db[k].symbol, db[k].exchange);
    } else if Less(CONTRACT_FIRST, k) && Less(k, CONTRACT_LAST) {
      assert CONTRACT_FIRST == "contract" + "+" && CONTRACT_LAST == "contract" + "=";
      BetweenHasPrefix("contract", "+", k, "=");
      assert k[0] == 'c';
      if IsSeriesRecord(db[k]) || IsSentinel(k) { SeriesInitial(k, db[k]); }
    }
  }

  lemma ContractBracketed(symbol: string, exchange: string)
    ensures Less(CONTRACT_FIRST, ContractKey(symbol, exchange)) && Less(ContractKey(symbol, exchange), CONTRACT_LAST)
  {
    var rest := "-" + symbol + "-" + exchange;
    assert ContractKey(symbol, exchange) == "contract" + rest;
    assert CONTRACT_FIRST == "contract" + "+" && CONTRACT_LAST == "contract" + "=";
    LessPrefix("contract", "+", rest);
    LessPrefix("contract", rest, "=");
  }

  // ---------------------------------------------------------------- one operation

  lemma PeriodListed(p: Period) returns (i: nat)
    ensures i < |PERIODS| && PERIODS[i] == p
  {
    i := match p
      case UnknownPeriod => 0 case S01 => 1 case S03 => 2 case S05 => 3 case S10 => 4 case S15 => 5 case S30 => 6
      case M01 => 7 case M03 => 8 case M05 => 9 case M10 => 10 case M15 => 11 case M30 => 12
      case H01 => 13 case H02 => 14 case H03 => 15 case H04 => 16 case D01 => 17 case W01 => 18 case X01 => 19;
  }

  lemma SentinelOf(base: string, end: string)
    requires GoodBase(base) && (end == "+" || end == "=")
    ensures IsSentinel(base + end)
  {
    var k := base + end;
    assert k[..|k| - 1] == base;
  }

  /** What insertContract writes beside the contract itself. */
  ghost function Sentinels(symbol: string, exchange: string): Db {
    TickSentinels(symbol, exchange) + BarSentinels(symbol, exchange, |PERIODS|)
  }

  /** The bar sentinels are empty, are sentinels, and cover the first n periods. */
  lemma {:induction false} BarSentinelKeys(symbol: string, exchange: string, n: nat)
    requires n <= |PERIODS| && GoodSymbol(symbol) && GoodExchange(exchange)
    ensures forall k :: k in BarSentinels(symbol, exchange, n) ==> BarSentinels(symbol, exchange, n)[k] == Empty && IsSentinel(k)
    ensures forall i :: 0 <= i < n ==>
              && FirstKey(BarBase(symbol, exchange, PERIODS[i])) in BarSentinels(symbol, exchange, n)
              && LastKey(BarBase(symbol, exchange, PERIODS[i])) in BarSentinels(symbol, exchange, n)
  {
    hide BarBase, FirstKey, LastKey, IsSentinel, GoodSymbol, GoodExchange;
    if n > 0 {
      BarSentinelKeys(symbol, exchange, n - 1);
      BarEnds(symbol, exchange, PERIODS[n - 1]);
    }
  }

  lemma SentinelsBracketContract(symbol: string, exchange: string)
    requires GoodSymbol(symbol) && GoodExchange(exchange)
    ensures Bracketed(Sentinels(symbol, exchange), symbol, exchange)
    ensures forall k :: k in Sentinels(symbol, exchange) ==> Sentinels(symbol, exchange)[k] == Empty && IsSentinel(k)
  {
    hide TickBase, BarBase, FirstKey, LastKey, IsSentinel, BarSentinels, GoodBase, GoodSymbol, GoodExchange;
    BarSentinelKeys(symbol, exchange, |PERIODS|);
    TickEnds(symbol, exchange);
    forall p: Period
      ensures FirstKey(BarBase(symbol, exchange, p)) in Sentinels(symbol, exchange)
      ensures LastKey(BarBase(symbol, exchange, p)) in Sentinels(symbol, exchange)
    {
      var i := PeriodListed(p);
    }
  }

  lemma TickEnds(symbol: string, exchange: string)
    requires GoodSymbol(symbol) && GoodExchange(exchange)
    ensures IsSentinel(FirstKey(TickBase(symbol, exchange))) && IsSentinel(LastKey(TickBase(symbol, exchange)))
  {
    assert IsBaseOf(TickBase(symbol, exchange), symbol, exchange);
    SentinelOf(TickBase(symbol, exchange), "+");
    SentinelOf(TickBase(symbol, exchange), "=");
  }

  lemma BarEnds(symbol: string, exchange: string, p: Period)
    requires GoodSymbol(symbol) && GoodExchange(exchange)
    ensures IsSentinel(FirstKey(BarBase(symbol, exchange, p))) && IsSentinel(LastKey(BarBase(symbol, exchange, p)))
  {
    assert IsBaseOf(BarBase(symbol, exchange, p), symbol, exchange);
    SentinelOf(BarBase(symbol, exchange, p), "+");
    SentinelOf(BarBase(symbol, exchange, p), "=");
  }

  /** A write or deletion that touches neither contracts nor sentinels. */
  ghost predicate OnlySeriesChanged(db: Db, after: Db) {
    && (forall k :: k in after && (k !in db || after[k] != db[k]) ==> GoodRecord(after[k]) && k == KeyOf(after[k]))
    && (forall k :: k in db && k !in after ==> IsSeriesRecord(db[k]))
  }

  /** A record's key is neither a sentinel's nor a contract's. */
  lemma RecordKeyApart(r: Record)
    requires GoodRecord(r)
    ensures !IsSentinel(KeyOf(r)) && KeyOf(r) != [] && KeyOf(r)[0] != 'c'
  {
    hide BaseOf, GoodBase;
    var k, base := KeyOf(r), BaseOf(r);
    BaseIsGood(r);
    BaseInitial(base);
    KeyShape(r);
    if IsSentinel(k) {
      var b := k[..|k| - 1];
      assert |base| < |b| && b[..|base|] == base && b[|base|] == '-';
      NotByADash(base, b);
    }
  }

  /** The kind of value a key can hold. */
  lemma KeyKind(k: string, v: Record)
    requires Shape(k, v)
    ensures IsSentinel(k) ==> v.Empty?
    ensures IsSeriesRecord(v) <==> k != [] && k[0] != 'c' && !IsSentinel(k)
  {
    hide BaseOf, KeyOf, IsSentinel;
    if IsSeriesRecord(v) {
      RecordKeyApart(v);
    } else if IsSentinel(k) && v.ContractRecord? {
      SentinelInitial(k);
      ContractInitial(v.symbol, v.exchange);
    } else if v.ContractRecord? {
      ContractInitial(v.symbol, v.exchange);
    }
  }

  lemma SentinelInitial(k: string)
    requires IsSentinel(k)
    ensures k != [] && (k[0] == 't' || k[0] == 'b')
  {
    hide GoodBase;
    BaseInitial(k[..|k| - 1]);
  }

  /** Under such a change every contract, sentinel and bracket stays. */
  lemma OthersStay(db: Db, after: Db, k: string)
    requires WellFormed(db) && OnlySeriesChanged(db, after) && k in db && !IsSeriesRecord(db[k])
    ensures k in after && after[k] == db[k]
  {
    hide KeyOf, Shape;
    assert Shape(k, db[k]);
    if k in after && after[k] != db[k] {
      RecordKeyApart(after[k]);
      KeyKind(k, db[k]);
    }
  }

  lemma SentinelStays(db: Db, after: Db, base: string)
    requires WellFormed(db) && OnlySeriesChanged(db, after) && GoodBase(base)
    requires FirstKey(base) in db && LastKey(base) in db
    ensures FirstKey(base) in after && LastKey(base) in after
  {
    hide KeyOf, Shape, IsSentinel, OnlySeriesChanged, GoodBase;
    SentinelOf(base, "+");
    SentinelOf(base, "=");
    KeyKind(FirstKey(base), db[FirstKey(base)]);
    KeyKind(LastKey(base), db[LastKey(base)]);
    OthersStay(db, after, FirstKey(base));
    OthersStay(db, after, LastKey(base));
  }

  lemma BracketStays(db: Db, after: Db, y: string, e: string)
    requires WellFormed(db) && OnlySeriesChanged(db, after) && GoodSymbol(y) && GoodExchange(e) && Bracketed(db, y, e)
    ensures Bracketed(after, y, e)
  {
    hide FirstKey, LastKey, TickBase, BarBase, WellFormed, OnlySeriesChanged, GoodSymbol, GoodExchange;
    assert IsBaseOf(TickBase(y, e), y, e);
    SentinelStays(db, after, TickBase(y, e));
    forall p: Period ensures FirstKey(BarBase(y, e, p)) in after && LastKey(BarBase(y, e, p)) in after {
      assert IsBaseOf(BarBase(y, e, p), y, e);
      SentinelStays(db, after, BarBase(y, e, p));
    }
  }

  lemma SeriesChangeKeepsAll(db: Db, after: Db, live: map<(string, string), Record>)
    requires StoreInv(db) && Agrees(db, live) && OnlySeriesChanged(db, after)
    ensures StoreInv(after) && Agrees(after, live)
  {
    hide KeyOf, ContractKey, GoodRecord, GoodContract, Shape, Bracketed;
    SeriesChangeWellFormed(db, after);
    forall k | k in db && !IsSeriesRecord(db[k]) ensures k in after && after[k] == db[k] {
      OthersStay(db, after, k);
    }
    forall k | k in after && after[k].ContractRecord? ensures k in db && db[k] == after[k] {
      SeriesNotContract(after[k]);
    }
    forall p | p in live ensures live[p].ContractRecord? { ContractFields(live[p]); }
  }

  lemma SeriesChangeKeepsBrackets(db: Db, after: Db, known: set<(string, string)>)
    requires WellFormed(db) && AllBracketed(db, known) && OnlySeriesChanged(db, after)
    ensures AllBracketed(after, known)
  {
    hide WellFormed, OnlySeriesChanged, Bracketed, GoodSymbol, GoodExchange;
    forall p | p in known ensures Bracketed(after, p.0, p.1) {
      BracketStays(db, after, p.0, p.1);
    }
  }

  lemma SeriesNotContract(r: Record)
    ensures GoodRecord(r) ==> !r.ContractRecord?
  {
  }

  lemma ContractFields(r: Record)
    requires GoodContract(r)
    ensures r.ContractRecord? && GoodSymbol(r.symbol) && GoodExchange(r.exchange)
  {
  }

  lemma SeriesChangeWellFormed(db: Db, after: Db)
    requires WellFormed(db) && OnlySeriesChanged(db, after)
    ensures WellFormed(after)
  {
    hide KeyOf, ContractKey, GoodRecord, GoodContract, IsSentinel;
  }

  lemma RangeDeletionIsSeriesChange(db: Db, symbol: string, exchange: string, more: string, base: string,
                                    d1: string, t1: string, d2: string, t2: string)
    requires WellFormed(db) && base == "tick-" + symbol + "-" + exchange + more
    ensures OnlySeriesChanged(db, DeleteBetween(db, RecordKey(base, d1, t1), RecordKey(base, d2, t2)))
  {
    hide RecordKey, Less, Shape, KeyOf;
    var lo, hi := RecordKey(base, d1, t1), RecordKey(base, d2, t2);
    forall k | k in db && Leq(lo, k) && Leq(k, hi) ensures IsSeriesRecord(db[k]) {
      DeletedKeysAreTickRecords(db, symbol, exchange, more, d1, t1, d2, t2, k);
    }
  }

  /** Operations on series change series only. */
  lemma SeriesOperation(db: Db, op: Op)
    requires WellFormed(db) && GoodOp(op) && (op.AddTick? || op.AddBar? || op.DropTicks? || op.DropBars?)
    ensures OnlySeriesChanged(db, Apply(db, op))
  {
    hide RecordKey, Less, Shape, FormatPeriod, DeleteBetween, GoodRecord;
    match op
    case AddTick(r) =>
    case AddBar(r) =>
    case DropTicks(req) =>
      var base := TickBase(req.symbol, req.exchange);
      assert base == "tick-" + req.symbol + "-" + req.exchange + "";
      RangeDeletionIsSeriesChange(db, req.symbol, req.exchange, "", base, req.fromDate, req.fromTime, req.toDate, req.toTime);
    case DropBars(req, period) =>
      var base := DeletedBarBase(req.symbol, req.exchange, period);
      var more := "-" + FormatPeriod(period);
      assert base == "tick-" + req.symbol + "-" + req.exchange + more;
      RangeDeletionIsSeriesChange(db, req.symbol, req.exchange, more, base, req.fromDate, req.fromTime, req.toDate, req.toTime);
  }

  /** Under the insertion of a contract all keys stay and the others keep their values. */
  lemma InsertedContract(db: Db, r: Record)
    requires StoreInv(db) && GoodContract(r)
    ensures var after := InsertContract(db, r);
            && (forall k :: k in db ==> k in after)
            && ContractKey(r.symbol, r.exchange) in after && after[ContractKey(r.symbol, r.exchange)] == r
            && Bracketed(after, r.symbol, r.exchange)
            && (forall k :: k in after && k != ContractKey(r.symbol, r.exchange) ==>
                  (k in db && after[k] == db[k]) || (after[k] == Empty && IsSentinel(k)))
  {
    hide TickBase, BarBase, FirstKey, LastKey, ContractKey, IsSentinel, WellFormed, TickSentinels, BarSentinels;
    var key := ContractKey(r.symbol, r.exchange);
    var sentinels := Sentinels(r.symbol, r.exchange);
    var after := InsertContract(db, r);
    assert after == db[key := r] + sentinels;
    SentinelsBracketContract(r.symbol, r.exchange);
    if key in sentinels {
      SentinelInitial(key);
      ContractInitial(r.symbol, r.exchange);
    }
  }

  lemma AddContractKeepsInv(db: Db, r: Record)
    requires StoreInv(db) && GoodContract(r)
    ensures StoreInv(InsertContract(db, r))
  {
    hide TickBase, BarBase, FirstKey, LastKey, ContractKey, IsSentinel, InsertContract, KeyOf, GoodRecord;
    InsertedContract(db, r);
    var after := InsertContract(db, r);
    ContractInitial(r.symbol, r.exchange);
    assert CONTRACT_FIRST[8] == '+' && CONTRACT_LAST[8] == '=';
    forall k | k in after ensures Shape(k, after[k]) {
      if k in db { assert Shape(k, db[k]); }
    }
  }

  lemma AddContractBrackets(db: Db, r: Record, known: set<(string, string)>)
    requires StoreInv(db) && GoodContract(r) && AllBracketed(db, known)
    ensures AllBracketed(InsertContract(db, r), known + {(r.symbol, r.exchange)})
  {
    hide TickBase, BarBase, FirstKey, LastKey, ContractKey, IsSentinel, InsertContract, WellFormed, GoodSymbol, GoodExchange;
    InsertedContract(db, r);
    ContractFields(r);
    forall p | p in known ensures Bracketed(InsertContract(db, r), p.0, p.1) {
      assert Bracketed(db, p.0, p.1);
    }
  }

  lemma AddContractAgrees(db: Db, r: Record, live: map<(string, string), Record>)
    requires StoreInv(db) && GoodContract(r) && Agrees(db, live)
    ensures Agrees(InsertContract(db, r), live[(r.symbol, r.exchange) := r])
  {
    hide ContractKey, IsSentinel, InsertContract, KeyOf, GoodRecord, Bracketed, GoodSymbol, GoodExchange;
    InsertedContract(db, r);
    var after := InsertContract(db, r);
    var key := ContractKey(r.symbol, r.exchange);
    forall p | p in live && p != (r.symbol, r.exchange)
      ensures ContractKey(p.0, p.1) in after && after[ContractKey(p.0, p.1)] == live[p]
    {
      var k := ContractKey(p.0, p.1);
      if k == key { ContractKeyInjective(p.0, p.1, r.symbol, r.exchange); }
      if IsSentinel(k) {
        SentinelInitial(k);
        ContractInitial(p.0, p.1);
      }
    }
    forall k | k in after && after[k].ContractRecord? && k != key
      ensures (after[k].symbol, after[k].exchange) != (r.symbol, r.exchange) && k in db && db[k] == after[k]
    {
      BetweenContracts(db, k);
    }
  }

  /** Removing one contract key, whatever texts it was built from. */
  lemma DropOneContract(db: Db, live: map<(string, string), Record>, y: string, e: string)
    requires StoreInv(db) && Agrees(db, live)
    ensures StoreInv(db - {ContractKey(y, e)}) && Agrees(db - {ContractKey(y, e)}, live - {(y, e)})
  {
    hide ContractKey, KeyOf, GoodRecord, GoodSymbol, GoodExchange, Bracketed;
    var key := ContractKey(y, e);
    var after := db - {key};
    ContractInitial(y, e);
    assert CONTRACT_FIRST[8] == '+' && CONTRACT_LAST[8] == '=';
    forall p | p in live && p != (y, e) ensures ContractKey(p.0, p.1) != key {
      if ContractKey(p.0, p.1) == key { ContractKeyInjective(p.0, p.1, y, e); }
    }
    forall k | k in after && after[k].ContractRecord? ensures (after[k].symbol, after[k].exchange) != (y, e) {
      BetweenContracts(db, k);
    }
  }

  /** Brackets do not depend on keys that start with 'c'. */
  lemma BracketWithout(db: Db, y: string, e: string, keys: set<string>)
    requires GoodSymbol(y) && GoodExchange(e) && Bracketed(db, y, e)
    requires forall k :: k in keys ==> k != [] && k[0] == 'c'
    ensures Bracketed(db - keys, y, e)
  {
    hide TickBase, BarBase, FirstKey, LastKey, IsSentinel;
    TickEnds(y, e);
    SentinelInitial(FirstKey(TickBase(y, e)));
    SentinelInitial(LastKey(TickBase(y, e)));
    forall p: Period ensures FirstKey(BarBase(y, e, p)) in db - keys && LastKey(BarBase(y, e, p)) in db - keys {
      BarEnds(y, e, p);
      SentinelInitial(FirstKey(BarBase(y, e, p)));
      SentinelInitial(LastKey(BarBase(y, e, p)));
    }
  }

  lemma AllBracketedWithout(db: Db, known: set<(string, string)>, keys: set<string>)
    requires AllBracketed(db, known) && forall k :: k in keys ==> k != [] && k[0] == 'c'
    ensures AllBracketed(db - keys, known)
  {
    hide Bracketed, GoodSymbol, GoodExchange;
    forall p | p in known ensures Bracketed(db - keys, p.0, p.1) {
      BracketWithout(db, p.0, p.1, keys);
    }
  }

  // ---------------------------------------------------------------- the star operations

  lemma {:induction false} UpToKeyElements(ks: seq<string>, stop: string)
    requires Ascending(ks) && stop in ks
    ensures forall k :: k in UpToKey(ks, stop) <==> k in ks && Less(k, stop)
  {
    hide Less;
    LessIrreflexive(stop);
    if ks[0] == stop {
      forall k | k in ks ensures !Less(k, stop) {
        var j :| 0 <= j < |ks| && ks[j] == k;
        if j > 0 { LessAsymmetric(stop, k); }
      }
    } else {
      UpToKeyElements(ks[1..], stop);
      assert forall k :: k in ks <==> k == ks[0] || k in ks[1..];
      var j :| 0 <= j < |ks| && ks[j] == stop;
    }
  }

  /** Behind the first sentinel come exactly the greater keys. */
  lemma AfterKeyElements(db: Db, first: string)
    requires first in db
    ensures Ascending(AfterKey(db, first))
    ensures forall k :: k in AfterKey(db, first) <==> k in db && Less(first, k)
  {
    hide Less, SortedKeys;
    var all := SortedKeys(set k | k in db && Leq(first, k));
    assert first in all;
    var i :| 0 <= i < |all| && all[i] == first;
    assert all[0] in all;
    LessIrreflexive(first);
    if i > 0 { LessAsymmetric(all[0], first); }
    assert all[0] == first;
    assert forall k :: k in all <==> k == all[0] || k in all[1..];
    forall k | k in all[1..] ensures Less(first, k) {
      var j :| 0 <= j < |all[1..]| && all[1..][j] == k;
      assert Less(all[0], all[j + 1]);
    }
  }

  /** The star deletion removes the contracts, all of them and nothing else. */
  lemma StarKeys(db: Db)
    requires StoreInv(db)
    ensures forall k :: k in UpToKey(AfterKey(db, CONTRACT_FIRST), CONTRACT_LAST) <==> k in db && db[k].ContractRecord?
  {
    hide Less, Shape, AfterKey, UpToKey;
    AfterKeyElements(db, CONTRACT_FIRST);
    SentinelOrder();
    UpToKeyElements(AfterKey(db, CONTRACT_FIRST), CONTRACT_LAST);
    forall k | k in db ensures db[k].ContractRecord? <==> Less(CONTRACT_FIRST, k) && Less(k, CONTRACT_LAST) {
      BetweenContracts(db, k);
    }
  }

  lemma SentinelOrder()
    ensures Less(CONTRACT_FIRST, CONTRACT_LAST)
  {
    assert CONTRACT_FIRST == "contract" + "+" && CONTRACT_LAST == "contract" + "=";
    LessPrefix("contract", "+", "=");
  }

  lemma DropAllContracts(db: Db, live: map<(string, string), Record>)
    requires StoreInv(db) && Agrees(db, live)
    ensures StoreInv(DeleteContract(db, "*", "*")) && Agrees(DeleteContract(db, "*", "*"), map[])
  {
    hide Shape, AfterKey, UpToKey, Less, Bracketed;
    StarKeys(db);
  }

  lemma ApplyKeepsAll(db: Db, live: map<(string, string), Record>, op: Op)
    requires StoreInv(db) && Agrees(db, live) && GoodOp(op)
    ensures StoreInv(Apply(db, op)) && Agrees(Apply(db, op), LiveAfter(live, op))
  {
    hide WellFormed, ContractKey, KeyOf, GoodRecord, Bracketed;
    match op
    case AddTick(_) => SeriesOperation(db, op); SeriesChangeKeepsAll(db, Apply(db, op), live);
    case AddBar(_) => SeriesOperation(db, op); SeriesChangeKeepsAll(db, Apply(db, op), live);
    case DropTicks(_) => SeriesOperation(db, op); SeriesChangeKeepsAll(db, Apply(db, op), live);
    case DropBars(_, _) => SeriesOperation(db, op); SeriesChangeKeepsAll(db, Apply(db, op), live);
    case AddContract(r) =>
      if GoodContract(r) {
        AddContractKeepsInv(db, r);
        AddContractAgrees(db, r, live);
      }
    case DropContract(y, e) =>
      if y == "*" && e == "*" {
        DropAllContracts(db, live);
      } else if y != [] && e != [] {
        DropOneContract(db, live, y, e);
      } else {
        assert live - {(y, e)} == live;
      }
    case CleanAll => CleanStore();
  }

  lemma ApplyKeepsBrackets(db: Db, known: set<(string, string)>, op: Op)
    requires StoreInv(db) && AllBracketed(db, known) && GoodOp(op)
    ensures AllBracketed(Apply(db, op), KnownAfter(known, op))
  {
    hide WellFormed, ContractKey, KeyOf, GoodRecord, AllBracketed, AfterKey, UpToKey, CompleteRange;
    match op
    case AddTick(_) => SeriesOperation(db, op); SeriesChangeKeepsBrackets(db, Apply(db, op), known);
    case AddBar(_) => SeriesOperation(db, op); SeriesChangeKeepsBrackets(db, Apply(db, op), known);
    case DropTicks(_) => SeriesOperation(db, op); SeriesChangeKeepsBrackets(db, Apply(db, op), known);
    case DropBars(_, _) => SeriesOperation(db, op); SeriesChangeKeepsBrackets(db, Apply(db, op), known);
    case AddContract(r) =>
      if GoodContract(r) {
        AddContractBrackets(db, r, known);
      }
    case DropContract(y, e) =>
      if y == "*" && e == "*" {
        StarInitials(db);
        AllBracketedWithout(db, known, set k | k in UpToKey(AfterKey(db, CONTRACT_FIRST), CONTRACT_LAST));
      } else if y != [] && e != [] {
        ContractInitial(y, e);
        AllBracketedWithout(db, known, {ContractKey(y, e)});
      }
    case CleanAll => NothingBracketed(DbInit(map[]));
  }

  lemma NothingBracketed(db: Db)
    ensures AllBracketed(db, {})
  {
  }

  lemma StarInitials(db: Db)
    requires StoreInv(db)
    ensures forall k :: k in UpToKey(AfterKey(db, CONTRACT_FIRST), CONTRACT_LAST) ==> k != [] && k[0] == 'c'
  {
    hide WellFormed, ContractKey, AfterKey, UpToKey, Less;
    StarKeys(db);
    forall k | k in UpToKey(AfterKey(db, CONTRACT_FIRST), CONTRACT_LAST) ensures k != [] && k[0] == 'c' {
      BetweenContracts(db, k);
      ContractInitial(db[k].symbol, db[k].exchange);
    }
  }

  lemma CleanStore()
    ensures StoreInv(DbInit(map[])) && Agrees(DbInit(map[]), map[])
  {
  }

  /** Every store reached by service operations is well formed, has the contract sentinels and
      brackets every contract inserted since the last clean; its contracts are those inserted and
      not deleted since. */
  lemma {:induction false} StoreOverRuns(ops: seq<Op>)
    requires forall op :: op in ops ==> GoodOp(op)
    ensures StoreInv(After(ops)) && Agrees(After(ops), Live(ops)) && AllBracketed(After(ops), Known(ops))
  {
    hide StoreInv, Agrees, AllBracketed, Apply, LiveAfter, KnownAfter;
    if ops == [] {
      CleanStore();
      NothingBracketed(DbInit(map[]));
    } else {
      var n := |ops| - 1;
      StoreOverRuns(ops[..n]);
      ApplyKeepsAll(After(ops[..n]), Live(ops[..n]), ops[n]);
      ApplyKeepsBrackets(After(ops[..n]), Known(ops[..n]), ops[n]);
    }
  }

  lemma {:induction false} NamedUpTo(rs: seq<Record>, n: nat)
    requires n < |rs| && SymbolOf(rs[n]) == []
    requires forall i :: 0 <= i < n ==> SymbolOf(rs[i]) != []
    ensures Named(rs) == rs[..n]
  {
    if n > 0 {
      NamedUpTo(rs[1..], n - 1);
      assert rs[..n] == [rs[0]] + rs[1..][..n - 1];
    }
  }

  /** The star scan selects the contract keys. */
  lemma StarSelects(db: Db) returns (keys: seq<string>)
    requires StoreInv(db)
    ensures Ascending(keys) && (forall k :: k in keys <==> k in db && db[k].ContractRecord?)
    ensures GetContract(db, "*", "*") == Values(db, keys)
  {
    hide Less, Shape, AfterKey, Values, Named, ContractKey, Bracketed, GoodSymbol, GoodExchange;
    AfterKeyElements(db, CONTRACT_FIRST);
    SentinelOrder();
    var all := AfterKey(db, CONTRACT_FIRST);
    var n :| 0 <= n < |all| && all[n] == CONTRACT_LAST;
    keys := all[..n];
    forall k ensures k in keys <==> k in db && db[k].ContractRecord? {
      if k in all {
        BetweenContracts(db, k);
        var i :| 0 <= i < |all| && all[i] == k;
        if i < n { assert keys[i] == k; } else { BehindLast(db, all, n, i); }
      } else if k in db {
        BetweenContracts(db, k);
      }
    }
    forall i | 0 <= i < n ensures GoodContract(db[all[i]]) {
      assert keys[i] in keys;
      BetweenContracts(db, all[i]);
    }
    ContractsNamed(Values(db, all), n);
    assert Values(db, keys) == Values(db, all)[..n];
  }

  /** getContract("*", "*") returns the live contracts, each once, in key order. */
  lemma StarListsLiveContracts(ops: seq<Op>) returns (keys: seq<string>)
    requires forall op :: op in ops ==> GoodOp(op)
    ensures Ascending(keys) && (forall k :: k in keys ==> k in After(ops))
    ensures GetContract(After(ops), "*", "*") == Values(After(ops), keys)
    ensures forall i :: 0 <= i < |keys| ==>
              var r := After(ops)[keys[i]]; r.ContractRecord? && keys[i] == ContractKey(r.symbol, r.exchange)
    ensures forall r :: r in GetContract(After(ops), "*", "*") <==> r in Live(ops).Values
  {
    hide Less, Shape, Values, GetContract, ContractKey, After, Live, Bracketed, GoodSymbol, GoodExchange;
    var db := After(ops);
    StoreOverRuns(ops);
    keys := StarSelects(db);
    var out := GetContract(db, "*", "*");
    forall i | 0 <= i < |keys| ensures db[keys[i]].ContractRecord? && keys[i] == ContractKey(db[keys[i]].symbol, db[keys[i]].exchange) {
      assert keys[i] in keys;
      BetweenContracts(db, keys[i]);
    }
    forall r ensures r in out <==> r in Live(ops).Values {
      if r in out {
        var i :| 0 <= i < |out| && out[i] == r;
        assert r == db[keys[i]];
      }
      if r in Live(ops).Values {
        var p :| p in Live(ops) && Live(ops)[p] == r;
        ContractFields(r);
        var k := ContractKey(p.0, p.1);
        assert k in keys;
        var i :| 0 <= i < |keys| && keys[i] == k;
        assert out[i] == r;
      }
    }
  }

  lemma BehindLast(db: Db, all: seq<string>, n: nat, i: nat)
    requires Ascending(all) && n <= i < |all|
    ensures !Less(all[i], all[n])
  {
    hide Less;
    if n == i { LessIrreflexive(all[n]); } else { LessAsymmetric(all[n], all[i]); }
  }

  lemma ContractsNamed(rs: seq<Record>, n: nat)
    requires n < |rs| && rs[n] == Empty
    requires forall i :: 0 <= i < n ==> GoodContract(rs[i])
    ensures Named(rs) == rs[..n]
  {
    NamedUpTo(rs, n);
  }

  /** getContract of one readable pair, unless it asks for all, returns the live contract or nothing. */
  lemma OneListsLiveContract(ops: seq<Op>, y: string, e: string)
    requires (forall op :: op in ops ==> GoodOp(op)) && GoodSymbol(y) && GoodExchange(e)
    requires y != "*" || e != "*"
    ensures GetContract(After(ops), y, e) == if (y, e) in Live(ops) then [Live(ops)[(y, e)]] else []
  {
    hide Less, Shape, Values, Named, After, Live, Bracketed;
    var db := After(ops);
    StoreOverRuns(ops);
    var key := ContractKey(y, e);
    if key in db {
      ContractInitial(y, e);
      assert CONTRACT_FIRST[8] == '+' && CONTRACT_LAST[8] == '=';
      ContractKeyHolds(db, y, e);
    }
  }

  lemma ContractKeyHolds(db: Db, y: string, e: string)
    requires WellFormed(db) && GoodSymbol(y) && GoodExchange(e) && ContractKey(y, e) in db
    ensures var r := db[ContractKey(y, e)]; GoodContract(r) && r.symbol == y && r.exchange == e
  {
    var k := ContractKey(y, e);
    ContractBracketed(y, e);
    BetweenContracts(db, k);
    ContractKeyInjective(y, e, db[k].symbol, db[k].exchange);
  }

  // ---------------------------------------------------------------- scans on reachable stores

  lemma {:induction false} LiveIsKnown(ops: seq<Op>)
    requires forall op :: op in ops ==> GoodOp(op)
    ensures Live(ops).Keys <= Known(ops)
  {
    if ops != [] {
      LiveIsKnown(ops[..|ops| - 1]);
    }
  }

  /** The operations since the last clean. */
  function SinceClean(ops: seq<Op>): seq<Op> {
    if ops == [] || ops[|ops| - 1].CleanAll? then [] else SinceClean(ops[..|ops| - 1]) + [ops[|ops| - 1]]
  }

  lemma {:induction false} SinceCleanAmong(ops: seq<Op>)
    ensures forall op :: op in SinceClean(ops) ==> op in ops
  {
    if ops != [] {
      SinceCleanAmong(ops[..|ops| - 1]);
    }
  }

  /** None of them brings ticks or a contract of the symbol on an exchange whose name extends this
      one by a character from '+' to before '='. */
  predicate Undisturbed(ops: seq<Op>, y: string, e: string) {
    forall op :: op in SinceClean(ops) && (op.AddTick? || op.AddContract?) ==> Peaceful(op, y, e)
  }

  predicate Peaceful(op: Op, y: string, e: string)
    requires op.AddTick? || op.AddContract?
  {
    match op.record
    case TickRecord(symbol, exchange, _, _, _) => symbol == y ==> !Intrudes(e, exchange)
    case ContractRecord(symbol, exchange, _, _) => symbol == y ==> !Intrudes(e, exchange)
    case _ => true
  }

  lemma BarSentinelInitials(symbol: string, exchange: string, n: nat)
    requires n <= |PERIODS|
    ensures forall k :: k in BarSentinels(symbol, exchange, n) ==> k != [] && k[0] == 'b'
  {
    if n > 0 {
      BarSentinelInitials(symbol, exchange, n - 1);
    }
  }

  /** What a key whose owner does not intrude into the series is. */
  ghost predicate Harmless(base: string, k: string, v: Record) {
    forall b :: GoodBase(b) && Owns(b, k, v) ==> !Intrudes(base, b)
  }

  lemma OtherInitialHarmless(base: string, k: string, v: Record)
    requires GoodBase(base) && base[0] == 't' && (v.Empty? || v.BarRecord?) && k != [] && (v.Empty? ==> k[0] != 't')
    ensures Harmless(base, k, v)
  {
    forall b | GoodBase(b) && Owns(b, k, v) ensures !Intrudes(base, b) {
      BaseInitial(b);
      if v.Empty? {
        assert b[0] == k[0];
      } else {
        assert b[0] == 'b';
      }
    }
  }

  lemma TicksHarmless(y: string, e: string, y2: string, e2: string, k: string, v: Record)
    requires GoodSymbol(y) && GoodExchange(e) && GoodSymbol(y2) && GoodExchange(e2)
    requires y2 == y ==> !Intrudes(e, e2)
    requires || (v.Empty? && (k == FirstKey(TickBase(y2, e2)) || k == LastKey(TickBase(y2, e2))))
             || (v.TickRecord? && v.symbol == y2 && v.exchange == e2)
    ensures Harmless(TickBase(y, e), k, v)
  {
    hide GoodBase, TickBase;
    TickIntruders(y, e, y2, e2);
    forall b | GoodBase(b) && Owns(b, k, v) ensures b == TickBase(y2, e2) {
      if v.Empty? {
        assert b == k[..|k| - 1] == TickBase(y2, e2);
      }
    }
  }

  lemma IsolatedByKeys(db: Db, base: string)
    ensures Isolated(db, base) <==> forall k :: k in db ==> Harmless(base, k, db[k])
  {
    hide GoodBase, Owns, Intrudes;
    if forall k :: k in db ==> Harmless(base, k, db[k]) {
      forall k, b | k in db && GoodBase(b) && Owns(b, k, db[k]) ensures !Intrudes(base, b) {
        assert Harmless(base, k, db[k]);
      }
    }
  }

  lemma ContractHarmless(base: string, k: string, v: Record)
    requires v.ContractRecord?
    ensures Harmless(base, k, v)
  {
  }

  lemma TickBaseGood(y: string, e: string)
    requires GoodSymbol(y) && GoodExchange(e)
    ensures GoodBase(TickBase(y, e)) && TickBase(y, e)[0] == 't'
  {
    GoodTickBase(y, e);
  }

  lemma InsertedContractHarmless(db: Db, r: Record, y: string, e: string)
    requires GoodContract(r) && GoodSymbol(y) && GoodExchange(e) && (r.symbol == y ==> !Intrudes(e, r.exchange))
    requires forall k :: k in db ==> Harmless(TickBase(y, e), k, db[k])
    ensures forall k :: k in InsertContract(db, r) ==> Harmless(TickBase(y, e), k, InsertContract(db, r)[k])
  {
    hide GoodBase, Harmless, Intrudes, TickBase, FirstKey, LastKey, ContractKey, BarSentinels, IsSentinel;
    var base, after := TickBase(y, e), InsertContract(db, r);
    TickBaseGood(y, e);
    SentinelsBracketContract(r.symbol, r.exchange);
    BarSentinelInitials(r.symbol, r.exchange, |PERIODS|);
    forall k | k in after ensures Harmless(base, k, after[k]) {
      if k in BarSentinels(r.symbol, r.exchange, |PERIODS|) {
        assert k in Sentinels(r.symbol, r.exchange) && after[k] == Sentinels(r.symbol, r.exchange)[k];
        OtherInitialHarmless(base, k, after[k]);
      } else if k in TickSentinels(r.symbol, r.exchange) {
        TicksHarmless(y, e, r.symbol, r.exchange, k, after[k]);
      } else if k == ContractKey(r.symbol, r.exchange) {
        ContractHarmless(base, k, after[k]);
      }
    }
  }

  lemma CleanHarmless(base: string)
    requires GoodBase(base) && base[0] == 't'
    ensures forall k :: k in DbInit(map[]) ==> Harmless(base, k, DbInit(map[])[k])
  {
    hide GoodBase, Harmless;
    OtherInitialHarmless(base, CONTRACT_FIRST, Empty);
    OtherInitialHarmless(base, CONTRACT_LAST, Empty);
  }

  lemma ApplyKeepsHarmless(db: Db, op: Op, y: string, e: string)
    requires GoodOp(op) && GoodSymbol(y) && GoodExchange(e)
    requires op.AddTick? || op.AddContract? ==> Peaceful(op, y, e)
    requires forall k :: k in db ==> Harmless(TickBase(y, e), k, db[k])
    ensures forall k :: k in Apply(db, op) ==> Harmless(TickBase(y, e), k, Apply(db, op)[k])
  {
    hide GoodBase, Harmless, Intrudes, TickBase, BarBase, RecordKey, ContractKey, InsertContract, CompleteRange,
         AfterKey, UpToKey;
    TickBaseGood(y, e);
    match op
    case AddTick(r) =>
      if CompleteRecord(r) {
        TicksHarmless(y, e, r.symbol, r.exchange, RecordKey(TickBase(r.symbol, r.exchange), r.date, r.time), r);
      }
    case AddBar(r) =>
      if CompleteRecord(r) && r.period != UnknownPeriod {
        BarKeyInitial(r);
        OtherInitialHarmless(TickBase(y, e), RecordKey(BarBase(r.symbol, r.exchange, r.period), r.date, r.time), r);
      }
    case AddContract(r) =>
      if GoodContract(r) {
        InsertedContractHarmless(db, r, y, e);
      } else {
        IncompleteContract(db, r);
      }
    case DropTicks(_) =>
    case DropBars(_, _) =>
    case DropContract(_, _) =>
    case CleanAll => CleanHarmless(TickBase(y, e));
  }

  lemma IncompleteContract(db: Db, r: Record)
    requires r.ContractRecord? && !GoodContract(r) && (r.symbol != [] && r.exchange != [] && r.name != [] ==> GoodContract(r))
    ensures InsertContract(db, r) == db
  {
  }

  lemma UndisturbedFront(ops: seq<Op>, y: string, e: string)
    requires Undisturbed(ops, y, e) && ops != [] && !ops[|ops| - 1].CleanAll?
    ensures Undisturbed(ops[..|ops| - 1], y, e)
    ensures var op := ops[|ops| - 1]; op.AddTick? || op.AddContract? ==> Peaceful(op, y, e)
  {
    hide Peaceful;
    var front, op := ops[..|ops| - 1], ops[|ops| - 1];
    assert SinceClean(ops)[|SinceClean(front)|] == op;
    forall o | o in SinceClean(front) ensures o in SinceClean(ops) {
      var j :| 0 <= j < |SinceClean(front)| && SinceClean(front)[j] == o;
      assert SinceClean(ops)[j] == o;
    }
  }

  lemma AfterClean(ops: seq<Op>)
    requires (forall op :: op in ops ==> GoodOp(op)) && ops != [] && ops[|ops| - 1].CleanAll?
    ensures After(ops) == DbInit(map[])
  {
  }

  lemma {:induction false} HarmlessOverRuns(ops: seq<Op>, y: string, e: string)
    requires (forall op :: op in ops ==> GoodOp(op)) && Undisturbed(ops, y, e) && GoodSymbol(y) && GoodExchange(e)
    ensures forall k :: k in After(ops) ==> Harmless(TickBase(y, e), k, After(ops)[k])
  {
    hide Harmless, TickBase, Apply, GoodSymbol, GoodExchange, Undisturbed;
    if ops == [] {
      TickBaseGood(y, e);
      CleanHarmless(TickBase(y, e));
    } else {
      var front, op := ops[..|ops| - 1], ops[|ops| - 1];
      if op.CleanAll? {
        TickBaseGood(y, e);
        CleanHarmless(TickBase(y, e));
        AfterClean(ops);
      } else {
        UndisturbedFront(ops, y, e);
        HarmlessOverRuns(front, y, e);
        ApplyKeepsHarmless(After(front), op, y, e);
      }
    }
  }

  /** In a store that no such operation touched, the ticks of the exchange are isolated. */
  lemma IsolatedOverRuns(ops: seq<Op>, y: string, e: string)
    requires (forall op :: op in ops ==> GoodOp(op)) && Undisturbed(ops, y, e) && GoodSymbol(y) && GoodExchange(e)
    ensures Isolated(After(ops), TickBase(y, e))
  {
    hide Harmless, TickBase, After, Undisturbed;
    HarmlessOverRuns(ops, y, e);
    IsolatedByKeys(After(ops), TickBase(y, e));
  }

  /** The two counted scans of a series do what their names say. */
  ghost predicate CountedScansExact(db: Db, base: string, date: string, time: string, count: int,
                                    later: seq<Record>, all: seq<Record>, i: nat) {
    && Lists(later, db, base, At(date, time), Unbounded)
    && FromCount(db, base, date, time, count) == Take(later, count)
    && Lists(all, db, base, Unbounded, Unbounded) && i <= |all|
    && (forall m :: 0 <= m < |all| ==> (EarlierThan(all[m], date, time) <==> m < i))
    && CountTo(db, base, date, time, count) == TakeLast(Upto(all, i), count)
  }

  lemma ScansExact(db: Db, base: string, date: string, time: string, count: int)
    returns (later: seq<Record>, all: seq<Record>, i: nat)
    requires WellFormed(db) && GoodBase(base) && Isolated(db, base) && GoodDate(date)
    requires FirstKey(base) in db && LastKey(base) in db
    ensures CountedScansExact(db, base, date, time, count, later, all, i)
  {
    hide Shape, Isolated, Lists, FromCount, CountTo, GoodDate, GoodBase, FirstKey, LastKey, EarlierThan;
    later := FromCountExact(db, base, date, time, count);
    all, i := CountToExact(db, base, date, time, count);
  }

  lemma KnownIsBracketed(ops: seq<Op>, y: string, e: string)
    requires (forall op :: op in ops ==> GoodOp(op)) && (y, e) in Known(ops)
    ensures Bracketed(After(ops), y, e) && WellFormed(After(ops)) && GoodSymbol(y) && GoodExchange(e)
  {
    hide Shape, After, Known, Bracketed, GoodSymbol, GoodExchange;
    StoreOverRuns(ops);
    assert GoodSymbol((y, e).0) && Bracketed(After(ops), (y, e).0, (y, e).1);
  }

  /** On every reachable store both counted scans are exact for the bars of any contract inserted
      since the last clean, deleted or not, */
  lemma KnownBarScansExact(ops: seq<Op>, y: string, e: string, p: Period, date: string, time: string, count: int)
    returns (later: seq<Record>, all: seq<Record>, i: nat)
    requires (forall op :: op in ops ==> GoodOp(op)) && (y, e) in Known(ops) && GoodDate(date)
    ensures CountedScansExact(After(ops), BarBase(y, e, p), date, time, count, later, all, i)
  {
    hide Shape, After, Known, Isolated, CountedScansExact, GoodDate, GoodBase, GoodSymbol, GoodExchange, BarBase, TickBase,
         FirstKey, LastKey;
    KnownIsBracketed(ops, y, e);
    BarsIsolated(After(ops), y, e, p);
    later, all, i := ScansExact(After(ops), BarBase(y, e, p), date, time, count);
  }

  /** and for its ticks, unless an exchange that extends the contract's reaches in. */
  lemma KnownTickScansExact(ops: seq<Op>, y: string, e: string, date: string, time: string, count: int)
    returns (later: seq<Record>, all: seq<Record>, i: nat)
    requires (forall op :: op in ops ==> GoodOp(op)) && (y, e) in Known(ops) && GoodDate(date)
    requires Undisturbed(ops, y, e)
    ensures CountedScansExact(After(ops), TickBase(y, e), date, time, count, later, all, i)
  {
    hide Shape, After, Known, Isolated, CountedScansExact, GoodDate, GoodBase, GoodSymbol, GoodExchange, BarBase, TickBase,
         FirstKey, LastKey, Undisturbed;
    KnownIsBracketed(ops, y, e);
    GoodTickBase(y, e);
    IsolatedOverRuns(ops, y, e);
    later, all, i := ScansExact(After(ops), TickBase(y, e), date, time, count);
  }

  // ---------------------------------------------------------------- deleteBar

  /** deleteBar never removes a bar, whatever is asked. */
  lemma DeleteBarKeepsBars(db: Db, req: RangeReq, period: Period, k: string)
    requires WellFormed(db) && k in db && db[k].BarRecord?
    ensures k in DeleteBar(db, req, period) && DeleteBar(db, req, period)[k] == db[k]
  {
    hide RecordKey, Less, Shape, FormatPeriod;
    var base := DeletedBarBase(req.symbol, req.exchange, period);
    assert base == "tick-" + req.symbol + "-" + req.exchange + ("-" + FormatPeriod(period));
    var lo, hi := RecordKey(base, req.fromDate, req.fromTime), RecordKey(base, req.toDate, req.toTime);
    if CompleteRange(req) && period != UnknownPeriod && Leq(lo, k) && Leq(k, hi) {
      DeletedKeysAreTickRecords(db, req.symbol, req.exchange, "-" + FormatPeriod(period), req.fromDate, req.fromTime,
                                req.toDate, req.toTime, k);
    }
  }

  /** What the service's interface promises of deleteBar. */
  ghost function DeletedBars(db: Db, req: RangeReq, period: Period): Db {
    if !CompleteRange(req) || period == UnknownPeriod then db
    else
      var base := BarBase(req.symbol, req.exchange, period);
      DeleteBetween(db, RecordKey(base, req.fromDate, req.fromTime), RecordKey(base, req.toDate, req.toTime))
  }

  /** The keys deleteBar removes are those of ticks dated with the period's name. */
  lemma DeletedBarKey(symbol: string, exchange: string, period: Period, d: string, t: string)
    ensures RecordKey(DeletedBarBase(symbol, exchange, period), d, t) ==
            RecordKey(TickBase(symbol, exchange), FormatPeriod(period), d + "-" + t)
  {
    hide FormatPeriod;
  }

  /** deleteBar does what is promised exactly when there is nothing to do: no bar in the
      window and no tick dated with the period's name in the corresponding range. */
  lemma DeleteBarMeetsPromiseIff(db: Db, req: RangeReq, period: Period)
    requires WellFormed(db) && CompleteRange(req) && period != UnknownPeriod
    ensures DeleteBar(db, req, period) == DeletedBars(db, req, period) <==>
            && FromTo(db, BarBase(req.symbol, req.exchange, period), req.fromDate, req.fromTime, req.toDate, req.toTime) == []
            && FromTo(db, TickBase(req.symbol, req.exchange), FormatPeriod(period), req.fromDate + "-" + req.fromTime,
                      FormatPeriod(period), req.toDate + "-" + req.toTime) == []
  {
    hide RecordKey, Less, Shape, FormatPeriod, BarBase, TickBase, KeysBetween, Values, CompleteRange;
    DeletedBarKey(req.symbol, req.exchange, period, req.fromDate, req.fromTime);
    DeletedBarKey(req.symbol, req.exchange, period, req.toDate, req.toTime);
    var bar, tick := BarBase(req.symbol, req.exchange, period), DeletedBarBase(req.symbol, req.exchange, period);
    var barLo, barHi := RecordKey(bar, req.fromDate, req.fromTime), RecordKey(bar, req.toDate, req.toTime);
    var tickLo, tickHi := RecordKey(tick, req.fromDate, req.fromTime), RecordKey(tick, req.toDate, req.toTime);
    forall k | k in db ensures !(Leq(barLo, k) && Leq(k, barHi) && Leq(tickLo, k) && Leq(k, tickHi)) {
      RangesApart(req, period, k);
    }
    DeletionsAgreeIff(db, barLo, barHi, tickLo, tickHi);
  }

  lemma RangesApart(req: RangeReq, period: Period, k: string)
    ensures var (bar, tick) := (BarBase(req.symbol, req.exchange, period), DeletedBarBase(req.symbol, req.exchange, period));
            !(&& Leq(RecordKey(bar, req.fromDate, req.fromTime), k) && Leq(k, RecordKey(bar, req.toDate, req.toTime))
              && Leq(RecordKey(tick, req.fromDate, req.fromTime), k) && Leq(k, RecordKey(tick, req.toDate, req.toTime)))
  {
    hide FormatPeriod;
    var bar, tick := BarBase(req.symbol, req.exchange, period), DeletedBarBase(req.symbol, req.exchange, period);
    assert RecordKey(bar, req.fromDate, req.fromTime)[0] == 'b' && RecordKey(bar, req.toDate, req.toTime)[0] == 'b';
    assert RecordKey(tick, req.fromDate, req.fromTime)[0] == 't' && RecordKey(tick, req.toDate, req.toTime)[0] == 't';
  }

  lemma DeletionsAgreeIff(db: Db, lo1: string, hi1: string, lo2: string, hi2: string)
    requires forall k :: k in db ==> !(Leq(lo1, k) && Leq(k, hi1) && Leq(lo2, k) && Leq(k, hi2))
    ensures DeleteBetween(db, lo2, hi2) == DeleteBetween(db, lo1, hi1) <==>
            Values(db, KeysBetween(db, lo1, hi1)) == [] && Values(db, KeysBetween(db, lo2, hi2)) == []
  {
    hide Less, KeysBetween, Values;
    var k1, k2 := KeysBetween(db, lo1, hi1), KeysBetween(db, lo2, hi2);
    var d1, d2 := DeleteBetween(db, lo1, hi1), DeleteBetween(db, lo2, hi2);
    if k1 != [] { assert k1[0] in k1 && k1[0] !in d1 && k1[0] in d2; }
    if k2 != [] { assert k2[0] in k2 && k2[0] !in d2 && k2[0] in d1; }
    assert |k1| == 0 ==> forall k :: k in db ==> k !in k1;
    assert |k2| == 0 ==> forall k :: k in db ==> k !in k2;
  }

  // ---------------------------------------------------------------- some reachable stores

  const CONTRACT := ContractRecord("rb1610", "SHFE", "rb", 0)
  const MINUTE := BarRecord("rb1610", "SHFE", M01, "20160908", "09:01:00", 0)
  const LATE := TickRecord("rb1610", "SHFE", "20160909", "09:00:00", 0)

  lemma SamplesGood()
    ensures GoodContract(CONTRACT) && GoodRecord(MINUTE) && GoodRecord(LATE)
  {
  }

  /** One bar stored, its day deleted: the bar is still there. */
  lemma DeleteBarMissesItsBar()
    ensures GoodOp(AddBar(MINUTE))
    ensures var day := RangeReq("rb1610", "SHFE", "20160908", "09:00:00", "20160908", "15:00:00", 0);
            var db := After([AddBar(MINUTE)]);
            && KeyOf(MINUTE) in DeleteBar(db, day, M01)
            && KeyOf(MINUTE) !in DeletedBars(db, day, M01)
  {
    hide RecordKey, DeleteBar, Less, WellFormed;
    SamplesGood();
    var day := RangeReq("rb1610", "SHFE", "20160908", "09:00:00", "20160908", "15:00:00", 0);
    var ops, base := [AddBar(MINUTE)], BarBase("rb1610", "SHFE", M01);
    assert ops[..0] == [];
    var db := After(ops);
    assert db == Apply(After([]), AddBar(MINUTE));
    StoreOverRuns(ops);
    DeleteBarKeepsBars(db, day, M01, KeyOf(MINUTE));
    MomentsInOrder();
    RecordKeyOrder(base, "20160908", "09:00:00", "20160908", "09:01:00");
    RecordKeyOrder(base, "20160908", "09:01:00", "20160908", "15:00:00");
  }

  lemma MomentsInOrder()
    ensures Before("20160908", "09:00:00", "20160908", "09:01:00")
    ensures Before("20160908", "09:01:00", "20160908", "15:00:00")
    ensures Before("20160908", "15:00:00", "20160909", "09:00:00")
  {
    LessPrefix("09:0", "0:00", "1:00");
    LessPrefix("", "09:01:00", "15:00:00");
    LessPrefix("2016090", "8", "9");
    assert "09:00:00" == "09:0" + "0:00" && "09:01:00" == "09:0" + "1:00";
    assert "20160908" == "2016090" + "8" && "20160909" == "2016090" + "9";
  }

  /** One tick stored, of the day after: asked for the last one up to the day before, the store
      answers with it. */
  lemma CountToReturnsALaterTick()
    ensures GoodOp(AddContract(CONTRACT)) && GoodOp(AddTick(LATE))
    ensures var db := After([AddContract(CONTRACT), AddTick(LATE)]);
            CountTo(db, TickBase("rb1610", "SHFE"), "20160908", "15:00:00", 1) == [LATE]
    ensures LaterThan(LATE, "20160908", "15:00:00")
  {
    hide TickBase, BarBase, RecordKey, Less, CountTo, Lists, Shape, Known, After, InsertContract, Bracketed;
    SamplesGood();
    MomentsInOrder();
    var ops, base := [AddContract(CONTRACT), AddTick(LATE)], TickBase("rb1610", "SHFE");
    LateStore(ops);
    NothingDisturbs(ops);
    var later, all, i := KnownTickScansExact(ops, "rb1610", "SHFE", "20160908", "15:00:00", 1);
    OneListed(After(ops), base, all);
    BeforeOrder("20160908", "15:00:00", "20160909", "09:00:00");
  }

  lemma LateStore(ops: seq<Op>)
    requires ops == [AddContract(CONTRACT), AddTick(LATE)]
    ensures forall op :: op in ops ==> GoodOp(op)
    ensures ("rb1610", "SHFE") in Known(ops)
    ensures var db := After(ops);
            && KeyOf(LATE) in db && db[KeyOf(LATE)] == LATE
            && forall k :: k in db && k != KeyOf(LATE) ==> !IsSeriesRecord(db[k])
  {
    hide TickBase, BarBase, RecordKey, Less, Shape, KnownAfter, InsertContract, Bracketed;
    SamplesGood();
    SampleKnown();
    assert ops[..1] == [AddContract(CONTRACT)] && ops[..1][..0] == [];
    AfterAppend([], AddContract(CONTRACT));
    AfterAppend(ops[..1], AddTick(LATE));
    assert [] + [AddContract(CONTRACT)] == ops[..1] && ops[..1] + [AddTick(LATE)] == ops;
    assert Known(ops) == KnownAfter(KnownAfter(Known([]), AddContract(CONTRACT)), AddTick(LATE));
    OnlyLate(InsertContract(After([]), CONTRACT), After([]));
  }

  lemma AfterAppend(ops: seq<Op>, op: Op)
    requires (forall o :: o in ops ==> GoodOp(o)) && GoodOp(op)
    ensures After(ops + [op]) == Apply(After(ops), op)
  {
    assert (ops + [op])[..|ops|] == ops;
  }

  lemma SampleKnown()
    ensures GoodOp(AddContract(CONTRACT)) && GoodOp(AddTick(LATE))
    ensures ("rb1610", "SHFE") in KnownAfter(KnownAfter({}, AddContract(CONTRACT)), AddTick(LATE))
  {
    SamplesGood();
  }

  lemma NothingDisturbs(ops: seq<Op>)
    requires ops == [AddContract(CONTRACT), AddTick(LATE)]
    ensures Undisturbed(ops, "rb1610", "SHFE")
  {
    SinceCleanAmong(ops);
  }

  /** The store then holds one record of the series. */
  lemma OnlyLate(db: Db, before: Db)
    requires before == DbInit(map[]) && db == InsertContract(before, CONTRACT) && GoodContract(CONTRACT)
    ensures forall k :: k in db ==> !IsSeriesRecord(db[k])
  {
    hide InsertContract, ContractKey, IsSentinel, Bracketed;
    CleanStore();
    InsertedContract(before, CONTRACT);
  }

  lemma OneListed(db: Db, base: string, all: seq<Record>)
    requires Lists(all, db, base, Unbounded, Unbounded)
    requires base == BaseOf(LATE) && KeyOf(LATE) in db && db[KeyOf(LATE)] == LATE
    requires forall k :: k in db && k != KeyOf(LATE) ==> !IsSeriesRecord(db[k])
    ensures all == [LATE]
  {
    hide TickBase, RecordKey, Before;
    assert LATE in db.Values;
    assert LATE in all;
    forall j | 0 <= j < |all| ensures all[j] == LATE {
      assert all[j] in all;
      var k :| k in db && db[k] == all[j];
    }
    BeforeOrder(LATE.date, LATE.time, LATE.date, LATE.time);
    assert |all| > 1 ==> Earlier(all[0], all[1]);
  }

  const FOREIGN := TickRecord("rb1610", "SHFE2", "20160909", "09:00:00", 0)

  /** A contract without ticks, and a tick on an exchange that extends the contract's: asked for the
      first tick of the contract, the store answers with the other exchange's. */
  lemma FromCountReturnsAForeignTick()
    ensures GoodOp(AddContract(CONTRACT)) && GoodOp(AddTick(FOREIGN))
    ensures var db := After([AddContract(CONTRACT), AddTick(FOREIGN)]);
            FromCount(db, TickBase("rb1610", "SHFE"), "20160908", "15:00:00", 1) == [FOREIGN]
  {
    hide TickBase, BarBase, RecordKey, FirstKey, LastKey, Less, Shape, KnownAfter, LiveAfter, InsertContract, Bracketed,
         KeysFrom, Isolated, GoodDate, GoodBase;
    SamplesGood();
    ForeignGood();
    var base := TickBase("rb1610", "SHFE");
    var lo, last := RecordKey(base, "20160908", "15:00:00"), LastKey(base);
    AfterAppend([], AddContract(CONTRACT));
    AfterAppend([AddContract(CONTRACT)], AddTick(FOREIGN));
    assert [] + [AddContract(CONTRACT)] == [AddContract(CONTRACT)];
    assert [AddContract(CONTRACT)] + [AddTick(FOREIGN)] == [AddContract(CONTRACT), AddTick(FOREIGN)];
    var start := DbInit(map[]);
    var before := After([AddContract(CONTRACT)]);
    var db := After([AddContract(CONTRACT), AddTick(FOREIGN)]);
    assert before == InsertContract(start, CONTRACT) && db == before[KeyOf(FOREIGN) := FOREIGN];
    ContractAlone();
    OnlyLate(before, start);
    ForeignInside();
    forall k ensures k in KeysFrom(db, lo, last) <==> k == KeyOf(FOREIGN) {
      if k in KeysFrom(db, lo, last) && k != KeyOf(FOREIGN) {
        NothingInside(before, k);
      }
    }
    OneKey(KeysFrom(db, lo, last), KeyOf(FOREIGN));
  }

  lemma ForeignGood()
    ensures GoodRecord(FOREIGN) && BaseOf(FOREIGN) == TickBase("rb1610", "SHFE2")
  {
  }

  /** The store of the contract alone keeps both tick sentinels, and its ticks isolated. */
  lemma ContractAlone()
    ensures GoodOp(AddContract(CONTRACT)) && GoodSymbol("rb1610") && GoodExchange("SHFE")
    ensures var db := After([AddContract(CONTRACT)]);
            && WellFormed(db) && Isolated(db, TickBase("rb1610", "SHFE")) && GoodBase(TickBase("rb1610", "SHFE"))
            && LastKey(TickBase("rb1610", "SHFE")) in db
  {
    hide TickBase, BarBase, FirstKey, LastKey, Less, Shape, LiveAfter, InsertContract, Isolated, GoodBase, Bracketed;
    SamplesGood();
    var ops := [AddContract(CONTRACT)];
    assert ops[..0] == [];
    SinceCleanAmong(ops);
    assert Undisturbed(ops, "rb1610", "SHFE");
    KnownIsBracketed(ops, "rb1610", "SHFE");
    IsolatedOverRuns(ops, "rb1610", "SHFE");
    GoodTickBase("rb1610", "SHFE");
    TickBracket(After(ops), "rb1610", "SHFE");
  }

  lemma TickBracket(db: Db, y: string, e: string)
    requires Bracketed(db, y, e)
    ensures FirstKey(TickBase(y, e)) in db && LastKey(TickBase(y, e)) in db
  {
  }

  lemma ForeignInside()
    ensures var base := TickBase("rb1610", "SHFE");
            Less(RecordKey(base, "20160908", "15:00:00"), KeyOf(FOREIGN)) && Less(KeyOf(FOREIGN), LastKey(base))
  {
    var base := TickBase("rb1610", "SHFE");
    var own, other := "-20160908-15:00:00", "2-20160909-09:00:00";
    assert RecordKey(base, "20160908", "15:00:00") == base + own;
    assert KeyOf(FOREIGN) == base + other;
    LessPrefix(base, own, other);
    LessPrefix(base, other, "=");
  }

  lemma NothingInside(db: Db, k: string)
    requires var base := TickBase("rb1610", "SHFE");
             && WellFormed(db) && GoodBase(base) && Isolated(db, base) && k in db
             && (forall x :: x in db ==> !IsSeriesRecord(db[x]))
    ensures var base := TickBase("rb1610", "SHFE");
            !(Leq(RecordKey(base, "20160908", "15:00:00"), k) && Less(k, LastKey(base)))
  {
    hide TickBase, RecordKey, FirstKey, LastKey, Less, Shape, Isolated, GoodBase;
    var base := TickBase("rb1610", "SHFE");
    SentinelsBracket(base, "20160908", "15:00:00");
    if Leq(RecordKey(base, "20160908", "15:00:00"), k) && Less(k, LastKey(base)) {
      LeqTransitive(FirstKey(base), RecordKey(base, "20160908", "15:00:00"), k);
      OnlyOwnRecords(db, base, k);
    }
  }

  lemma OneKey(keys: seq<string>, key: string)
    requires Ascending(keys) && forall k :: k in keys <==> k == key
    ensures keys == [key]
  {
    hide Less;
    LessIrreflexive(key);
    AscendingUnique(keys, [key]);
  }
}
