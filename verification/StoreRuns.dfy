/** What a deletion takes out of the store, and what queries answer after it. */
module StoreRuns {
  import opened Lex
  import opened StoreKeys
  import opened Store
  import opened StoreMeaning

  // ---------------------------------------------------------------- a deleted window

  /** The list without the records of a window. */
  function Without(rs: seq<Record>, base: string, lo: Bound, hi: Bound): (out: seq<Record>)
    ensures forall r :: r in out <==> r in rs && !InWindow(r, base, lo, hi)
  {
    hide InWindow;
    if rs == [] then []
    else
      var n := |rs| - 1;
      assert rs == rs[..n] + [rs[n]];
      Without(rs[..n], base, lo, hi) + if InWindow(rs[n], base, lo, hi) then [] else [rs[n]]
  }

  lemma ChronologicalSplit(rs: seq<Record>, r: Record)
    requires Chronological(rs + [r])
    ensures Chronological(rs) && IsSeriesRecord(r) && forall x :: x in rs ==> Earlier(x, r)
  {
    hide Earlier, IsSeriesRecord;
    var all := rs + [r];
    assert all[|rs|] == r;
    forall i | 0 <= i < |rs| ensures IsSeriesRecord(rs[i]) && Earlier(rs[i], r) {
      assert all[i] == rs[i];
    }
    forall i, j | 0 <= i < j < |rs| ensures Earlier(rs[i], rs[j]) {
      assert all[i] == rs[i] && all[j] == rs[j];
    }
  }

  lemma ChronologicalAppended(rs: seq<Record>, r: Record)
    requires Chronological(rs) && IsSeriesRecord(r) && forall x :: x in rs ==> Earlier(x, r)
    ensures Chronological(rs + [r])
  {
    hide Earlier, IsSeriesRecord;
  }

  lemma {:induction false} WithoutKeepsOrder(rs: seq<Record>, base: string, lo: Bound, hi: Bound)
    requires Chronological(rs)
    ensures Chronological(Without(rs, base, lo, hi))
  {
    hide InWindow, Before, Earlier, IsSeriesRecord, Chronological;
    if rs != [] {
      var n := |rs| - 1;
      assert rs == rs[..n] + [rs[n]];
      ChronologicalSplit(rs[..n], rs[n]);
      WithoutKeepsOrder(rs[..n], base, lo, hi);
      ChronologicalAppended(Without(rs[..n], base, lo, hi), rs[n]);
      assert Without(rs[..n], base, lo, hi) + [] == Without(rs[..n], base, lo, hi);
    } else {
      assert Without(rs, base, lo, hi) == rs;
    }
  }

  /** deleteTick takes exactly the records of the window out of the index and leaves every
      other key with its value: other series, contracts, sentinels. */
  lemma DeleteTickTakesWindow(db: Db, req: RangeReq)
    requires WellFormed(db) && CompleteRange(req)
    requires GoodSymbol(req.symbol) && GoodExchange(req.exchange) && GoodDate(req.fromDate) && GoodDate(req.toDate)
    ensures var after := DeleteTick(db, req);
            var base := TickBase(req.symbol, req.exchange);
            && (forall k :: k in after ==> k in db && after[k] == db[k])
            && (forall k :: k in db ==>
                  (k !in after <==> InWindow(db[k], base, At(req.fromDate, req.fromTime), At(req.toDate, req.toTime))))
  {
    hide Less, RecordKey, TickBase, Shape, BaseOf, Before, GoodDate, GoodSymbol, GoodExchange, CompleteRange;
    var base := TickBase(req.symbol, req.exchange);
    GoodTickBase(req.symbol, req.exchange);
    var from, to := At(req.fromDate, req.fromTime), At(req.toDate, req.toTime);
    var lo, hi := RecordKey(base, req.fromDate, req.fromTime), RecordKey(base, req.toDate, req.toTime);
    forall k | k in db ensures Leq(lo, k) && Leq(k, hi) <==> InWindow(db[k], base, from, to) {
      WindowKeys(db, base, req.fromDate, req.fromTime, req.toDate, req.toTime, k);
    }
  }

  lemma GoodTickBase(symbol: string, exchange: string)
    requires GoodSymbol(symbol) && GoodExchange(exchange)
    ensures GoodBase(TickBase(symbol, exchange))
  {
    assert IsBaseOf(TickBase(symbol, exchange), symbol, exchange);
  }

  /** Any query after a deletion is the same query before it, minus the window. */
  lemma QueryAfterDelete(db: Db, req: RangeReq, base: string, lo: Bound, hi: Bound, rs: seq<Record>)
    requires WellFormed(db) && CompleteRange(req)
    requires GoodSymbol(req.symbol) && GoodExchange(req.exchange) && GoodDate(req.fromDate) && GoodDate(req.toDate)
    requires Lists(rs, db, base, lo, hi)
    ensures Lists(Without(rs, TickBase(req.symbol, req.exchange), At(req.fromDate, req.fromTime), At(req.toDate, req.toTime)),
                  DeleteTick(db, req), base, lo, hi)
  {
    hide Less, TickBase, Shape, InWindow, WellFormed, GoodDate, GoodSymbol, GoodExchange, CompleteRange,
         DeleteTick, Earlier;
    var after := DeleteTick(db, req);
    var window := TickBase(req.symbol, req.exchange);
    var from, to := At(req.fromDate, req.fromTime), At(req.toDate, req.toTime);
    DeleteTickTakesWindow(db, req);
    WithoutKeepsOrder(rs, window, from, to);
    forall r ensures r in after.Values <==> r in db.Values && !InWindow(r, window, from, to) {
      if r in after.Values {
        var k :| k in after && after[k] == r;
        assert k in db;
      }
      if r in db.Values && !InWindow(r, window, from, to) {
        var k :| k in db && db[k] == r;
        assert k in after;
      }
    }
  }

  lemma FromToAfterDelete(db: Db, req: RangeReq, base: string, d1: string, t1: string, d2: string, t2: string)
    requires WellFormed(db) && CompleteRange(req) && GoodBase(base) && GoodDate(d1) && GoodDate(d2)
    requires GoodSymbol(req.symbol) && GoodExchange(req.exchange) && GoodDate(req.fromDate) && GoodDate(req.toDate)
    ensures FromTo(DeleteTick(db, req), base, d1, t1, d2, t2) ==
            Without(FromTo(db, base, d1, t1, d2, t2),
                    TickBase(req.symbol, req.exchange), At(req.fromDate, req.fromTime), At(req.toDate, req.toTime))
  {
    hide Less, TickBase, Shape, Lists, FromTo, GoodBase, GoodDate, GoodSymbol, GoodExchange, CompleteRange,
         DeleteTick, Without;
    var after := DeleteTick(db, req);
    DeleteTickTakesWindow(db, req);
    FromToExact(db, base, d1, t1, d2, t2);
    FromToExact(after, base, d1, t1, d2, t2);
    QueryAfterDelete(db, req, base, At(d1, t1), At(d2, t2), FromTo(db, base, d1, t1, d2, t2));
    ListsUnique(after, base, At(d1, t1), At(d2, t2), FromTo(after, base, d1, t1, d2, t2),
                Without(FromTo(db, base, d1, t1, d2, t2),
                        TickBase(req.symbol, req.exchange), At(req.fromDate, req.fromTime), At(req.toDate, req.toTime)));
  }

  // ---------------------------------------------------------------- counting dashes

  function Dashes(s: string): nat {
    if s == [] then 0 else (if s[0] == '-' then 1 else 0) + Dashes(s[1..])
  }

  lemma {:induction false} DashesAdd(a: string, b: string)
    ensures Dashes(a + b) == Dashes(a) + Dashes(b)
  {
    if a == [] {
      assert a + b == b;
    } else {
      assert (a + b)[1..] == a[1..] + b;
      DashesAdd(a[1..], b);
    }
  }

  lemma {:induction false} NoDashes(s: string)
    requires NoDash(s)
    ensures Dashes(s) == 0
  {
    if s != [] { NoDashes(s[1..]); }
  }

  lemma {:induction false} DashesOfPrefix(p: string, k: string)
    requires p <= k
    ensures Dashes(p) <= Dashes(k)
  {
    assert k == p + k[|p|..];
    DashesAdd(p, k[|p|..]);
  }

  /** A tick sentinel has two dashes; whatever deleteTick or deleteBar removes has at least three. */
  lemma TickSentinelDashes(symbol: string, exchange: string, end: string)
    requires GoodSymbol(symbol) && GoodExchange(exchange) && NoDash(end)
    ensures Dashes(TickBase(symbol, exchange) + end) == 2
  {
    var a, b := "tick-" + symbol, "-" + exchange;
    assert TickBase(symbol, exchange) + end == (a + b) + end;
    DashesAdd(a + b, end);
    DashesAdd(a, b);
    DashesAdd("tick-", symbol);
    DashesAdd("-", exchange);
    NoDashes(symbol);
    NoDashes(exchange);
    NoDashes(end);
    assert "tick-"[1..] == "ick-" && "ick-"[1..] == "ck-" && "ck-"[1..] == "k-" && "k-"[1..] == "-" && "-"[1..] == "";
  }

  lemma DeletedDashes(symbol: string, exchange: string, rest: string)
    ensures Dashes("tick-" + symbol + "-" + exchange + "-" + rest) >= 3
  {
    DashesAdd("tick-" + symbol + "-" + exchange + "-", rest);
    DashesAdd("tick-" + symbol + "-" + exchange, "-");
    DashesAdd("tick-" + symbol + "-", exchange);
    DashesAdd("tick-" + symbol, "-");
    DashesAdd("tick-", symbol);
    assert "tick-"[1..] == "ick-" && "ick-"[1..] == "ck-" && "ck-"[1..] == "k-" && "k-"[1..] == "-" && "-"[1..] == "";
  }

  /** The common prefix of the keys a range deletion removes. */
  lemma DeletedPrefix(symbol: string, exchange: string, more: string, d: string, t: string)
    ensures var q := "tick-" + symbol + "-" + exchange + more + "-";
            && RecordKey("tick-" + symbol + "-" + exchange + more, d, t) == q + (d + "-" + t)
            && q[0] == 't' && Dashes(q) >= 3
  {
    var p := "tick-" + symbol + "-" + exchange;
    DashesAdd(p + more, "-");
    DashesAdd(p, more);
    assert p + "-" + "" == p + "-";
    DeletedDashes(symbol, exchange, "");
    DashesAdd(p, "-");
  }

  /** No request, however odd its texts, makes a range deletion reach a tick sentinel, a bar key or a contract key. */
  lemma DeletedKeysAreTickRecords(db: Db, symbol: string, exchange: string, more: string, d1: string, t1: string,
                                  d2: string, t2: string, k: string)
    requires WellFormed(db) && k in db
    requires var base := "tick-" + symbol + "-" + exchange + more;
             Leq(RecordKey(base, d1, t1), k) && Leq(k, RecordKey(base, d2, t2))
    ensures db[k].TickRecord?
  {
    hide RecordKey, Less, Dashes, KeyOf, IsSentinel;
    var q := "tick-" + symbol + "-" + exchange + more + "-";
    DeletedPrefix(symbol, exchange, more, d1, t1);
    DeletedPrefix(symbol, exchange, more, d2, t2);
    BetweenHasPrefix(q, d1 + "-" + t1, k, d2 + "-" + t2);
    assert k[0] == q[0];
    DashesOfPrefix(q, k);
    assert Shape(k, db[k]);
    NotSentinelShape(k);
    if db[k].BarRecord? { BarKeyInitial(db[k]); }
  }

  lemma NotSentinelShape(k: string)
    requires k != [] && k[0] == 't' && Dashes(k) >= 3
    ensures !IsSentinel(k)
  {
    hide Dashes;
    if IsSentinel(k) {
      var b, c := k[..|k| - 1], k[|k| - 1..];
      assert k == b + c && NoDash(c);
      BaseInitial(b);
      var y, e := TickBaseOf(b);
      TickSentinelDashes(y, e, c);
    }
  }

  lemma TickBaseOf(b: string) returns (y: string, e: string)
    requires GoodBase(b) && b != [] && b[0] == 't'
    ensures GoodSymbol(y) && GoodExchange(e) && b == TickBase(y, e)
  {
    y, e :| GoodSymbol(y) && GoodExchange(e) && IsBaseOf(b, y, e);
    assert forall p: Period :: BarBase(y, e, p)[0] == 'b';
  }

  lemma BarKeyInitial(r: Record)
    requires r.BarRecord?
    ensures KeyOf(r) != [] && KeyOf(r)[0] == 'b'
  {
  }
}
