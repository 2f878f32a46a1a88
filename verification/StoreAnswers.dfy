/** The ticks and bars every reachable store holds, told from the history of requests alone, and
    what the answers to getTick and getBar are in these terms. */
module StoreAnswers {
  import opened Lex
  import opened StoreKeys
  import opened Store
  import opened StoreMeaning
  import opened StoreRuns
  import opened StoreHistory

  // ---------------------------------------------------------------- the history's records

  /** Where a record has its place. Three-hour bars share the place of four-hour bars. */
  datatype Slot = TickSlot(symbol: string, exchange: string, date: string, time: string)
                | BarSlot(symbol: string, exchange: string, period: Period, date: string, time: string)

  function Shared(p: Period): Period {
    if p == H03 then H04 else p
  }

  function SlotOf(r: Record): Slot
    requires IsSeriesRecord(r)
  {
    if r.TickRecord? then TickSlot(r.symbol, r.exchange, r.date, r.time)
    else BarSlot(r.symbol, r.exchange, Shared(r.period), r.date, r.time)
  }

  type Stored = map<Slot, Record>

  /** The records last inserted for each place, and not deleted or cleaned away since. */
  ghost function StoredBy(ops: seq<Op>): Stored
    requires forall op :: op in ops ==> GoodOp(op)
  {
    if ops == [] then map[] else StoredAfter(StoredBy(ops[..|ops| - 1]), ops[|ops| - 1])
  }

  ghost function StoredAfter(stored: Stored, op: Op): Stored
    requires GoodOp(op)
  {
    match op
    case AddTick(r) => if CompleteRecord(r) then stored[SlotOf(r) := r] else stored
    case AddBar(r) => if CompleteRecord(r) && r.period != UnknownPeriod then stored[SlotOf(r) := r] else stored
    case DropTicks(req) => map s | s in stored && !Drops(req, stored[s]) :: stored[s]
    case DropBars(req, period) => map s | s in stored && !DropsDated(req, period, stored[s]) :: stored[s]
    case CleanAll => map[]
    case _ => stored
  }

  predicate NothingMissing(req: RangeReq) {
    [] !in [req.symbol, req.exchange, req.fromDate, req.fromTime, req.toDate, req.toTime]
  }

  predicate Readable(req: RangeReq) {
    GoodSymbol(req.symbol) && GoodExchange(req.exchange)
  }

  /** What deleteTick deletes: the ticks of the window. A request with unreadable texts deletes
      whatever its texts put between the bounds. */
  ghost predicate Drops(req: RangeReq, r: Record) {
    && NothingMissing(req) && IsSeriesRecord(r)
    && if Readable(req) && GoodDate(req.fromDate) && GoodDate(req.toDate) then
         && r.TickRecord? && r.symbol == req.symbol && r.exchange == req.exchange
         && !Before(r.date, r.time, req.fromDate, req.fromTime) && !Before(req.toDate, req.toTime, r.date, r.time)
       else
         Within(TickBase(req.symbol, req.exchange), req, r)
  }

  /** What deleteBar deletes: ticks dated with the period's name. */
  ghost predicate DropsDated(req: RangeReq, period: Period, r: Record) {
    && NothingMissing(req) && period != UnknownPeriod && IsSeriesRecord(r)
    && if Readable(req) then
         && r.TickRecord? && r.symbol == req.symbol && r.exchange == req.exchange && r.date == FormatPeriod(period)
         && !Less(r.time, req.fromDate + "-" + req.fromTime) && !Less(req.toDate + "-" + req.toTime, r.time)
       else
         Within(DeletedBarBase(req.symbol, req.exchange, period), req, r)
  }

  ghost predicate Within(base: string, req: RangeReq, r: Record)
    requires IsSeriesRecord(r)
  {
    Leq(RecordKey(base, req.fromDate, req.fromTime), KeyOf(r)) && Leq(KeyOf(r), RecordKey(base, req.toDate, req.toTime))
  }

  /** The store holds exactly these ticks and bars. */
  ghost predicate Holds(db: Db, stored: Stored) {
    && (forall s :: s in stored ==>
          && GoodRecord(stored[s]) && SlotOf(stored[s]) == s
          && KeyOf(stored[s]) in db && db[KeyOf(stored[s])] == stored[s])
    && (forall k :: k in db && IsSeriesRecord(db[k]) ==> SlotOf(db[k]) in stored && stored[SlotOf(db[k])] == db[k])
  }

  // ---------------------------------------------------------------- one place, one key

  /** Two records have one key exactly if they have one place. */
  lemma SameSlotIff(a: Record, b: Record)
    requires GoodRecord(a) && GoodRecord(b)
    ensures KeyOf(a) == KeyOf(b) <==> SlotOf(a) == SlotOf(b)
  {
    hide TickBase, BarBase, RecordKey, GoodBase;
    BaseIsGood(a);
    BaseIsGood(b);
    DateNoDash(a.date);
    DateNoDash(b.date);
    if KeyOf(a) == KeyOf(b) {
      RecordKeyInjective(BaseOf(a), a.date, a.time, BaseOf(b), b.date, b.time);
    }
    SameBaseIff(a, b);
  }

  lemma DateNoDash(d: string)
    requires GoodDate(d)
    ensures NoDash(d)
  {
  }

  lemma SameBaseIff(a: Record, b: Record)
    requires GoodRecord(a) && GoodRecord(b)
    ensures BaseOf(a) == BaseOf(b) <==> a.TickRecord? == b.TickRecord? && a.symbol == b.symbol && a.exchange == b.exchange
                                        && (a.BarRecord? && b.BarRecord? ==> Shared(a.period) == Shared(b.period))
  {
    hide FormatPeriod;
    if a.TickRecord? && b.TickRecord? {
      SameTickBase(a.symbol, a.exchange, b.symbol, b.exchange);
    } else if a.BarRecord? && b.BarRecord? {
      BarSeriesSharedIff(a.symbol, a.exchange, a.period, b.symbol, b.exchange, b.period);
    } else {
      assert BaseOf(a)[0] != BaseOf(b)[0];
    }
  }

  // ---------------------------------------------------------------- one operation

  lemma PutKeepsHolds(db: Db, stored: Stored, r: Record)
    requires WellFormed(db) && Holds(db, stored) && GoodRecord(r)
    ensures Holds(db[KeyOf(r) := r], stored[SlotOf(r) := r])
  {
    hide KeyOf, SlotOf, Shape, WellFormed;
    var after, now := db[KeyOf(r) := r], stored[SlotOf(r) := r];
    forall s | s in now ensures KeyOf(now[s]) in after && after[KeyOf(now[s])] == now[s] && GoodRecord(now[s]) {
      SameSlotIff(now[s], r);
    }
    forall k | k in after && IsSeriesRecord(after[k]) ensures SlotOf(after[k]) in now && now[SlotOf(after[k])] == after[k] {
      if k != KeyOf(r) {
        OwnKey(db, k);
        SameSlotIff(db[k], r);
      }
    }
  }

  /** A range deletion drops from the history what its key range holds. */
  lemma DeletionKeepsHolds(db: Db, stored: Stored, after: Stored, lo: string, hi: string)
    requires WellFormed(db) && Holds(db, stored)
    requires after.Keys <= stored.Keys && forall s :: s in after ==> after[s] == stored[s]
    requires forall s :: s in stored ==> (s in after <==> !(Leq(lo, KeyOf(stored[s])) && Leq(KeyOf(stored[s]), hi)))
    ensures Holds(DeleteBetween(db, lo, hi), after)
  {
    hide KeyOf, SlotOf, Shape, WellFormed, Less, GoodRecord;
    var left := DeleteBetween(db, lo, hi);
    forall k | k in left && IsSeriesRecord(left[k]) ensures SlotOf(left[k]) in after && after[SlotOf(left[k])] == left[k] {
      OwnKey(db, k);
    }
  }

  lemma DropsIff(req: RangeReq, r: Record)
    requires GoodRecord(r) && CompleteRange(req)
    ensures Drops(req, r) <==> Within(TickBase(req.symbol, req.exchange), req, r)
  {
    hide RecordKey, Less, BaseOf, GoodDate, Before, TickBase;
    if Readable(req) && GoodDate(req.fromDate) && GoodDate(req.toDate) {
      var base := TickBase(req.symbol, req.exchange);
      GoodTickBase(req.symbol, req.exchange);
      WindowIff(r, base, req.fromDate, req.fromTime, req.toDate, req.toTime);
      TicksOfIff(r, req.symbol, req.exchange);
    }
  }

  /** The key of a record lies between two of a series exactly if it is of the series, in the window. */
  lemma WindowIff(r: Record, base: string, d1: string, t1: string, d2: string, t2: string)
    requires GoodRecord(r) && GoodBase(base) && GoodDate(d1) && GoodDate(d2)
    ensures Leq(RecordKey(base, d1, t1), KeyOf(r)) && Leq(KeyOf(r), RecordKey(base, d2, t2)) <==>
            InWindow(r, base, At(d1, t1), At(d2, t2))
  {
    hide RecordKey, Less, BaseOf, GoodDate, Before, InWindow, GoodBase;
    var db: Db := map[KeyOf(r) := r];
    OneShaped(r);
    WindowKeys(db, base, d1, t1, d2, t2, KeyOf(r));
  }

  lemma OneShaped(r: Record)
    requires GoodRecord(r)
    ensures WellFormed(map[KeyOf(r) := r])
  {
    hide KeyOf, GoodRecord, IsSentinel, GoodContract;
  }

  lemma TicksOfIff(r: Record, y: string, e: string)
    requires GoodRecord(r) && GoodSymbol(y) && GoodExchange(e)
    ensures BaseOf(r) == TickBase(y, e) <==> r.TickRecord? && r.symbol == y && r.exchange == e
  {
    var tick := TickRecord(y, e, r.date, r.time, 0);
    SameBaseIff(r, tick);
  }

  lemma BarsOfIff(r: Record, y: string, e: string, p: Period)
    requires GoodRecord(r) && GoodSymbol(y) && GoodExchange(e) && p != UnknownPeriod
    ensures BaseOf(r) == BarBase(y, e, p) <==>
            r.BarRecord? && r.symbol == y && r.exchange == e && Shared(r.period) == Shared(p)
  {
    var bar := BarRecord(y, e, p, r.date, r.time, 0);
    SameBaseIff(r, bar);
  }

  lemma PeriodIsDate(p: Period)
    ensures GoodDate(FormatPeriod(p))
  {
  }

  lemma DropsDatedIff(req: RangeReq, period: Period, r: Record)
    requires GoodRecord(r) && CompleteRange(req) && period != UnknownPeriod
    ensures DropsDated(req, period, r) <==> Within(DeletedBarBase(req.symbol, req.exchange, period), req, r)
  {
    hide RecordKey, Less, BaseOf, GoodDate, TickBase, FormatPeriod, DeletedBarBase;
    if Readable(req) {
      var base, d := TickBase(req.symbol, req.exchange), FormatPeriod(period);
      var t1, t2 := req.fromDate + "-" + req.fromTime, req.toDate + "-" + req.toTime;
      GoodTickBase(req.symbol, req.exchange);
      PeriodIsDate(period);
      DeletedBarKey(req.symbol, req.exchange, period, req.fromDate, req.fromTime);
      DeletedBarKey(req.symbol, req.exchange, period, req.toDate, req.toTime);
      WindowIff(r, base, d, t1, d, t2);
      TicksOfIff(r, req.symbol, req.exchange);
      SameDayIff(r, d, t1, t2);
    }
  }

  lemma SameDayIff(r: Record, d: string, t1: string, t2: string)
    requires IsSeriesRecord(r)
    ensures !Before(r.date, r.time, d, t1) && !Before(d, t2, r.date, r.time) <==>
            r.date == d && !Less(r.time, t1) && !Less(t2, r.time)
  {
    hide Less;
    LessTotal(r.date, d);
    LessIrreflexive(d);
  }

  /** Operations on contracts leave every tick and bar. */
  lemma SameSeriesHolds(db: Db, after: Db, stored: Stored)
    requires Holds(db, stored)
    requires forall k :: k in db && IsSeriesRecord(db[k]) ==> k in after && after[k] == db[k]
    requires forall k :: k in after && IsSeriesRecord(after[k]) ==> k in db && db[k] == after[k]
    ensures Holds(after, stored)
  {
    hide KeyOf, SlotOf, GoodSymbol, GoodExchange, GoodDate;
  }

  lemma AddContractHolds(db: Db, stored: Stored, r: Record)
    requires StoreInv(db) && Holds(db, stored) && GoodContract(r)
    ensures Holds(InsertContract(db, r), stored)
  {
    hide InsertContract, ContractKey, IsSentinel, Shape, Holds, Bracketed;
    var after := InsertContract(db, r);
    InsertedContract(db, r);
    ContractInitial(r.symbol, r.exchange);
    ContractFields(r);
    forall k | k in db && IsSeriesRecord(db[k]) ensures after[k] == db[k] {
      KeyKind(k, db[k]);
    }
    SameSeriesHolds(db, after, stored);
  }

  lemma DropContractHolds(db: Db, stored: Stored, y: string, e: string)
    requires StoreInv(db) && Holds(db, stored)
    ensures Holds(DeleteContract(db, y, e), stored)
  {
    hide ContractKey, Shape, Holds, AfterKey, UpToKey, IsSentinel;
    var after := DeleteContract(db, y, e);
    StarKeys(db);
    ContractInitial(y, e);
    forall k | k in db && IsSeriesRecord(db[k]) ensures k in after {
      KeyKind(k, db[k]);
    }
    SameSeriesHolds(db, after, stored);
  }

  lemma CleanHolds()
    ensures Holds(DbInit(map[]), map[])
  {
  }

  lemma DropTicksHolds(db: Db, stored: Stored, req: RangeReq)
    requires WellFormed(db) && Holds(db, stored)
    ensures Holds(DeleteTick(db, req), StoredAfter(stored, DropTicks(req)))
  {
    hide RecordKey, Less, KeyOf, SlotOf, Shape, CompleteRange, Drops, WellFormed;
    var after := StoredAfter(stored, DropTicks(req));
    if CompleteRange(req) {
      var base := TickBase(req.symbol, req.exchange);
      forall s | s in stored ensures s in after <==> !Within(base, req, stored[s]) {
        DropsIff(req, stored[s]);
      }
      DeletionKeepsHolds(db, stored, after, RecordKey(base, req.fromDate, req.fromTime), RecordKey(base, req.toDate, req.toTime));
    } else {
      IncompleteDrops(req);
      assert after == stored;
    }
  }

  lemma IncompleteDrops(req: RangeReq)
    requires !CompleteRange(req)
    ensures forall r :: !Drops(req, r)
    ensures forall r, p :: !DropsDated(req, p, r)
  {
  }

  lemma UnknownDrops(req: RangeReq)
    ensures forall r :: !DropsDated(req, UnknownPeriod, r)
  {
  }

  lemma DropBarsHolds(db: Db, stored: Stored, req: RangeReq, period: Period)
    requires WellFormed(db) && Holds(db, stored)
    ensures Holds(DeleteBar(db, req, period), StoredAfter(stored, DropBars(req, period)))
  {
    hide RecordKey, Less, KeyOf, SlotOf, Shape, CompleteRange, DropsDated, WellFormed, DeletedBarBase;
    var after := StoredAfter(stored, DropBars(req, period));
    if CompleteRange(req) && period != UnknownPeriod {
      var base := DeletedBarBase(req.symbol, req.exchange, period);
      forall s | s in stored ensures s in after <==> !Within(base, req, stored[s]) {
        DropsDatedIff(req, period, stored[s]);
      }
      DeletionKeepsHolds(db, stored, after, RecordKey(base, req.fromDate, req.fromTime), RecordKey(base, req.toDate, req.toTime));
    } else {
      UnknownDrops(req);
      if !CompleteRange(req) {
        IncompleteDrops(req);
      }
      assert after == stored;
    }
  }

  lemma ApplyKeepsHolds(db: Db, stored: Stored, op: Op)
    requires StoreInv(db) && Holds(db, stored) && GoodOp(op)
    ensures Holds(Apply(db, op), StoredAfter(stored, op))
  {
    hide WellFormed, KeyOf, SlotOf, Holds, InsertContract, DeleteContract, DeleteTick, DeleteBar, GoodRecord;
    match op
    case AddTick(r) => if CompleteRecord(r) { PutKeepsHolds(db, stored, r); KeyOfTick(r); }
    case AddBar(r) => if CompleteRecord(r) && r.period != UnknownPeriod { PutKeepsHolds(db, stored, r); KeyOfBar(r); }
    case AddContract(r) => if GoodContract(r) { AddContractHolds(db, stored, r); } else { IncompleteContract(db, r); }
    case DropTicks(req) => DropTicksHolds(db, stored, req);
    case DropBars(req, period) => DropBarsHolds(db, stored, req, period);
    case DropContract(y, e) => DropContractHolds(db, stored, y, e);
    case CleanAll => CleanHolds();
  }

  lemma KeyOfTick(r: Record)
    requires r.TickRecord?
    ensures KeyOf(r) == RecordKey(TickBase(r.symbol, r.exchange), r.date, r.time)
  {
  }

  lemma KeyOfBar(r: Record)
    requires r.BarRecord?
    ensures KeyOf(r) == RecordKey(BarBase(r.symbol, r.exchange, r.period), r.date, r.time)
  {
  }

  /** Every reachable store holds exactly the ticks and bars last inserted for their places and not
      deleted or cleaned away since. */
  lemma {:induction false} StoredOverRuns(ops: seq<Op>)
    requires forall op :: op in ops ==> GoodOp(op)
    ensures Holds(After(ops), StoredBy(ops))
  {
    hide Holds, Apply, StoredAfter, StoreInv, Agrees, AllBracketed;
    if ops == [] {
      CleanHolds();
    } else {
      var front := ops[..|ops| - 1];
      StoredOverRuns(front);
      StoreOverRuns(front);
      ApplyKeepsHolds(After(front), StoredBy(front), ops[|ops| - 1]);
    }
  }

  /** A bar inserted for a place taken replaces the one there, a four-hour bar the three-hour bar of
      the same moment. */
  lemma LaterBarReplaces(ops: seq<Op>, a: Record, b: Record)
    requires (forall op :: op in ops ==> GoodOp(op)) && a.BarRecord? && b.BarRecord? && GoodRecord(a) && GoodRecord(b)
    requires SlotOf(a) == SlotOf(b) && a != b
    ensures var db := After(ops + [AddBar(a)] + [AddBar(b)]); b in db.Values && a !in db.Values
  {
    hide After, KeyOf, Shape, GoodRecord;
    var one := ops + [AddBar(a)];
    var two := one + [AddBar(b)];
    assert two[..|one|] == one;
    BarsComplete(b);
    StoredOverRuns(two);
    assert StoredBy(two) == StoredBy(one)[SlotOf(b) := b];
    var stored := StoredBy(two);
    assert SlotOf(b) in stored && stored[SlotOf(b)] == b;
    assert After(two)[KeyOf(b)] == b;
  }

  lemma BarsComplete(r: Record)
    requires r.BarRecord? && GoodRecord(r)
    ensures CompleteRecord(r) && r.period != UnknownPeriod
  {
  }

  // ---------------------------------------------------------------- what a request is answered

  datatype Series = Ticks(symbol: string, exchange: string) | Bars(symbol: string, exchange: string, period: Period)

  function BaseFor(s: Series): string {
    match s
    case Ticks(y, e) => TickBase(y, e)
    case Bars(y, e, p) => BarBase(y, e, p)
  }

  predicate GoodSeries(s: Series) {
    GoodSymbol(s.symbol) && GoodExchange(s.exchange) && (s.Bars? ==> s.period != UnknownPeriod)
  }

  predicate Of(r: Record, s: Series) {
    match s
    case Ticks(y, e) => r.TickRecord? && r.symbol == y && r.exchange == e
    case Bars(y, e, p) => r.BarRecord? && r.symbol == y && r.exchange == e && Shared(r.period) == Shared(p)
  }

  predicate NotBefore(r: Record, lo: Bound) {
    IsSeriesRecord(r) && (lo.At? ==> !Before(r.date, r.time, lo.date, lo.time))
  }

  predicate NotAfter(r: Record, hi: Bound) {
    IsSeriesRecord(r) && (hi.At? ==> !Before(hi.date, hi.time, r.date, r.time))
  }

  /** The records of the history that belong to the series and the window, oldest first. */
  ghost predicate Recounts(rs: seq<Record>, stored: Stored, s: Series, lo: Bound, hi: Bound) {
    && Chronological(rs)
    && forall r :: r in rs <==> r in stored.Values && Of(r, s) && NotBefore(r, lo) && NotAfter(r, hi)
  }

  lemma OfIff(r: Record, s: Series)
    requires GoodRecord(r) && GoodSeries(s)
    ensures Of(r, s) <==> BaseOf(r) == BaseFor(s)
  {
    hide TickBase, BarBase;
    match s
    case Ticks(y, e) => TicksOfIff(r, y, e);
    case Bars(y, e, p) => BarsOfIff(r, y, e, p);
  }

  /** What lists a window of the store recounts the history, and the other way round. */
  lemma ListsRecount(db: Db, stored: Stored, rs: seq<Record>, s: Series, lo: Bound, hi: Bound)
    requires WellFormed(db) && Holds(db, stored) && GoodSeries(s)
    ensures Lists(rs, db, BaseFor(s), lo, hi) <==> Recounts(rs, stored, s, lo, hi)
  {
    hide KeyOf, SlotOf, Shape, WellFormed, BaseOf, BaseFor, Of, Before, Chronological, GoodSeries, GoodSymbol,
         GoodExchange, GoodDate;
    forall r ensures r in db.Values && InWindow(r, BaseFor(s), lo, hi) <==>
                     r in stored.Values && Of(r, s) && NotBefore(r, lo) && NotAfter(r, hi) {
      if r in db.Values && IsSeriesRecord(r) {
        var k :| k in db && db[k] == r;
        OwnKey(db, k);
        assert stored[SlotOf(r)] == r;
        OfIff(r, s);
      }
      if r in stored.Values {
        var t :| t in stored && stored[t] == r;
        assert db[KeyOf(r)] == r;
        OfIff(r, s);
      }
    }
  }

  lemma BaseForGood(s: Series)
    requires GoodSeries(s)
    ensures GoodBase(BaseFor(s))
  {
    assert IsBaseOf(BaseFor(s), s.symbol, s.exchange);
  }

  /** Both dates are given. */
  predicate WantsWindow(req: RangeReq) {
    req.fromDate != [] && req.toDate != []
  }

  /** No date, or a readable one. */
  predicate DateOrNone(date: string) {
    date == [] || GoodDate(date)
  }

  /** What a request for a series asks for: with both dates the window; with an end the last count
      records up to and including the first one at or after it; with a start the first count
      records from it on; without dates nothing. */
  ghost predicate Answers(out: seq<Record>, stored: Stored, s: Series, req: RangeReq) {
    if WantsWindow(req) then
      Recounts(out, stored, s, At(req.fromDate, req.fromTime), At(req.toDate, req.toTime))
    else if req.toDate != [] then
      exists all, i: nat ::
        && Recounts(all, stored, s, Unbounded, Unbounded) && i <= |all|
        && (forall m :: 0 <= m < |all| ==> (EarlierThan(all[m], req.toDate, req.toTime) <==> m < i))
        && out == TakeLast(Upto(all, i), req.count)
    else if req.fromDate != [] then
      exists later :: Recounts(later, stored, s, At(req.fromDate, req.fromTime), Unbounded) && out == Take(later, req.count)
    else
      out == []
  }

  lemma QueryAnswers(db: Db, stored: Stored, s: Series, req: RangeReq)
    requires WellFormed(db) && Holds(db, stored) && GoodSeries(s) && DateOrNone(req.fromDate) && DateOrNone(req.toDate)
    requires WantsWindow(req)
             || (Isolated(db, BaseFor(s)) && FirstKey(BaseFor(s)) in db && LastKey(BaseFor(s)) in db)
    ensures Answers(Query(db, BaseFor(s), req), stored, s, req)
  {
    hide Holds, Shape, WellFormed, Isolated, BaseFor, FirstKey, LastKey, GoodDate, GoodSeries, GoodBase, FromTo,
         FromCount, CountTo, Lists, Recounts, EarlierThan;
    var base := BaseFor(s);
    BaseForGood(s);
    if WantsWindow(req) {
      var from, to := At(req.fromDate, req.fromTime), At(req.toDate, req.toTime);
      FromToExact(db, base, req.fromDate, req.fromTime, req.toDate, req.toTime);
      ListsRecount(db, stored, Query(db, base, req), s, from, to);
    } else if req.toDate != [] {
      var all, i := CountToExact(db, base, req.toDate, req.toTime, req.count);
      ListsRecount(db, stored, all, s, Unbounded, Unbounded);
    } else if req.fromDate != [] {
      var later := FromCountExact(db, base, req.fromDate, req.fromTime, req.count);
      ListsRecount(db, stored, later, s, At(req.fromDate, req.fromTime), Unbounded);
    }
  }

  /** Over any history, getTick answers what the request asks for of the ticks inserted: a window
      always, counted requests for any contract inserted since the last clean, unless an exchange
      that extends the contract's reaches in. */
  lemma GetTickOverRuns(ops: seq<Op>, req: RangeReq)
    requires (forall op :: op in ops ==> GoodOp(op)) && Readable(req) && DateOrNone(req.fromDate) && DateOrNone(req.toDate)
    requires WantsWindow(req)
             || ((req.symbol, req.exchange) in Known(ops) && Undisturbed(ops, req.symbol, req.exchange))
    ensures Answers(GetTick(After(ops), req), StoredBy(ops), Ticks(req.symbol, req.exchange), req)
  {
    hide Holds, Shape, After, StoredBy, Known, Undisturbed, Isolated, TickBase, FirstKey, LastKey, GoodDate, Answers,
         Query, Agrees, AllBracketed;
    var y, e := req.symbol, req.exchange;
    StoredOverRuns(ops);
    StoreOverRuns(ops);
    if !WantsWindow(req) {
      KnownIsBracketed(ops, y, e);
      IsolatedOverRuns(ops, y, e);
    }
    QueryAnswers(After(ops), StoredBy(ops), Ticks(y, e), req);
  }

  /** And so does getBar, whatever exchanges there are. */
  lemma GetBarOverRuns(ops: seq<Op>, req: RangeReq, period: Period)
    requires (forall op :: op in ops ==> GoodOp(op)) && Readable(req) && DateOrNone(req.fromDate) && DateOrNone(req.toDate)
    requires period != UnknownPeriod
    requires WantsWindow(req) || (req.symbol, req.exchange) in Known(ops)
    ensures Answers(GetBar(After(ops), req, period), StoredBy(ops), Bars(req.symbol, req.exchange, period), req)
  {
    hide Holds, Shape, After, StoredBy, Known, Isolated, BarBase, FirstKey, LastKey, GoodDate, Answers, Query, Agrees,
         AllBracketed;
    var y, e := req.symbol, req.exchange;
    StoredOverRuns(ops);
    StoreOverRuns(ops);
    if !WantsWindow(req) {
      KnownIsBracketed(ops, y, e);
      BarsIsolated(After(ops), y, e, period);
    }
    QueryAnswers(After(ops), StoredBy(ops), Bars(y, e, period), req);
  }

  /** A request without symbol, exchange or period, or without dates, is answered with nothing. */
  lemma IncompleteRequest(db: Db, req: RangeReq, period: Period)
    ensures req.symbol == [] || req.exchange == [] || (req.fromDate == [] && req.toDate == []) ==>
              GetTick(db, req) == [] && GetBar(db, req, period) == []
    ensures GetBar(db, req, UnknownPeriod) == []
  {
    hide TickBase, BarBase;
  }
}
