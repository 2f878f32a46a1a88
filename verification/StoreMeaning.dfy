/** What the scans mean on a store that holds well-formed records: a series is the
    chronological list of its records, whatever else shares the index. */
module StoreMeaning {
  import opened Lex
  import opened StoreKeys
  import opened Store

  predicate IsSeriesRecord(r: Record) {
    r.TickRecord? || r.BarRecord?
  }

  function BaseOf(r: Record): string
    requires IsSeriesRecord(r)
  {
    if r.TickRecord? then TickBase(r.symbol, r.exchange) else BarBase(r.symbol, r.exchange, r.period)
  }

  function KeyOf(r: Record): string
    requires IsSeriesRecord(r)
  {
    RecordKey(BaseOf(r), r.date, r.time)
  }

  predicate GoodRecord(r: Record) {
    && IsSeriesRecord(r)
    && GoodSymbol(r.symbol) && GoodExchange(r.exchange) && GoodDate(r.date) && r.time != []
    && (r.BarRecord? ==> r.period != UnknownPeriod)
  }

  predicate GoodContract(r: Record) {
    r.ContractRecord? && GoodSymbol(r.symbol) && GoodExchange(r.exchange) && r.name != []
  }

  ghost predicate IsSentinel(k: string) {
    k != [] && GoodBase(k[..|k| - 1]) && (k[|k| - 1] == '+' || k[|k| - 1] == '=')
  }

  /** A value stands under the key built from its own fields. */
  ghost predicate Shape(k: string, v: Record) {
    || (v.Empty? && (k == CONTRACT_FIRST || k == CONTRACT_LAST || IsSentinel(k)))
    || (GoodContract(v) && k == ContractKey(v.symbol, v.exchange))
    || (GoodRecord(v) && k == KeyOf(v))
  }

  ghost predicate WellFormed(db: Db) {
    forall k :: k in db ==> Shape(k, db[k])
  }

  lemma BaseIsGood(r: Record)
    requires GoodRecord(r)
    ensures GoodBase(BaseOf(r))
  {
    assert IsBaseOf(BaseOf(r), r.symbol, r.exchange);
  }

  lemma BaseInitial(base: string)
    requires GoodBase(base)
    ensures base != [] && (base[0] == 't' || base[0] == 'b')
  {
    var y, e :| GoodSymbol(y) && GoodExchange(e) && IsBaseOf(base, y, e);
    BaseLetters(base, y, e);
  }

  // ---------------------------------------------------------------- isolation

  /** The value under k is a sentinel or a record of series b. */
  ghost predicate Owns(b: string, k: string, v: Record) {
    || (v.Empty? && (k == FirstKey(b) || k == LastKey(b)))
    || (IsSeriesRecord(v) && BaseOf(v) == b)
  }

  /** No series that intrudes into this one has a key in the store. */
  ghost predicate Isolated(db: Db, base: string) {
    forall k, b :: k in db && GoodBase(b) && Owns(b, k, db[k]) ==> !Intrudes(base, b)
  }

  /** What an owner's key adds to its base. */
  lemma OwnedKey(db: Db, b: string, k: string) returns (rest: string)
    requires WellFormed(db) && k in db && GoodBase(b) && Owns(b, k, db[k])
    ensures k == b + rest && (rest == "+" || rest == "=" || (rest != [] && rest[0] == '-'))
    ensures IsSeriesRecord(db[k]) ==> BaseOf(db[k]) == b
    ensures IsSeriesRecord(db[k]) <==> rest[0] == '-'
  {
    hide GoodBase, BaseOf, Shape, WellFormed;
    if db[k].Empty? {
      rest := if k == FirstKey(b) then "+" else "=";
    } else {
      rest := "-" + db[k].date + "-" + db[k].time;
      OwnKey(db, k);
      KeyShape(db[k]);
    }
  }

  /** Every key between a series' sentinels has an owner. */
  lemma OwnerOf(db: Db, base: string, k: string) returns (b: string)
    requires WellFormed(db) && GoodBase(base) && k in db
    requires Less(FirstKey(base), k) && Less(k, LastKey(base))
    ensures GoodBase(b) && Owns(b, k, db[k])
    ensures IsSeriesRecord(db[k]) ==> GoodRecord(db[k]) && k == KeyOf(db[k])
  {
    hide GoodBase, Less, KeyOf, BaseOf, GoodExchange, GoodSymbol, GoodDate;
    var v := db[k];
    assert Shape(k, v);
    BaseInitial(base);
    BetweenHasPrefix(base, "+", k, "=");
    assert k[0] == base[0];
    if IsSentinel(k) && v.Empty? {
      b := k[..|k| - 1];
      assert k == b + k[|k| - 1..];
    } else {
      b := BaseOf(v);
      BaseIsGood(v);
    }
  }

  /** Between the sentinels of an isolated series stand its own records only. */
  lemma OnlyOwnRecords(db: Db, base: string, k: string)
    requires WellFormed(db) && GoodBase(base) && Isolated(db, base) && k in db
    requires Less(FirstKey(base), k) && Less(k, LastKey(base))
    ensures GoodRecord(db[k]) && BaseOf(db[k]) == base && k == KeyOf(db[k])
  {
    hide GoodBase, Less, KeyOf, BaseOf, GoodRecord, Intrudes, WellFormed;
    var b := OwnerOf(db, base, k);
    var rest := OwnedKey(db, b, k);
    BracketOnlyOwn(base, b, rest);
    LessIrreflexive(k);
  }

  /** Being isolated is exactly what keeps other keys out of the bracket. */
  lemma IsolatedIff(db: Db, base: string)
    requires WellFormed(db) && GoodBase(base)
    ensures Isolated(db, base) <==>
            forall k :: k in db && Less(FirstKey(base), k) && Less(k, LastKey(base)) ==>
              IsSeriesRecord(db[k]) && BaseOf(db[k]) == base
  {
    hide GoodBase, Less, KeyOf, BaseOf, GoodRecord, WellFormed, FirstKey, LastKey;
    if Isolated(db, base) {
      forall k | k in db && Less(FirstKey(base), k) && Less(k, LastKey(base))
        ensures IsSeriesRecord(db[k]) && BaseOf(db[k]) == base
      {
        OnlyOwnRecords(db, base, k);
        GoodRecordKind(db[k]);
      }
    } else {
      var k, b :| k in db && GoodBase(b) && Owns(b, k, db[k]) && Intrudes(base, b);
      var rest := OwnedKey(db, b, k);
      IntruderInside(base, b, rest);
    }
  }

  lemma GoodRecordKind(r: Record)
    requires GoodRecord(r)
    ensures IsSeriesRecord(r)
  {
  }

  /** Series of bars always are. */
  lemma BarsIsolated(db: Db, y: string, e: string, p: Period)
    requires GoodSymbol(y) && GoodExchange(e)
    ensures Isolated(db, BarBase(y, e, p)) && GoodBase(BarBase(y, e, p))
  {
    hide Intrudes, Owns;
    assert IsBaseOf(BarBase(y, e, p), y, e);
    forall b | GoodBase(b) ensures !Intrudes(BarBase(y, e, p), b) {
      BarsUndisturbed(y, e, p, b);
    }
  }

  /** A series of ticks is, exactly if no ticks of the symbol are kept, and no contract bracketed,
      on an exchange whose name extends its own by a character from '+' to before '='. */
  lemma TicksIsolatedIff(db: Db, y: string, e: string)
    requires GoodSymbol(y) && GoodExchange(e)
    ensures GoodBase(TickBase(y, e))
    ensures Isolated(db, TickBase(y, e)) <==>
            forall k, e2 :: k in db && GoodExchange(e2) && Owns(TickBase(y, e2), k, db[k]) ==> !Intrudes(e, e2)
  {
    hide Intrudes, Owns;
    var base := TickBase(y, e);
    assert IsBaseOf(base, y, e);
    if Isolated(db, base) {
      forall k, e2 | k in db && GoodExchange(e2) && Owns(TickBase(y, e2), k, db[k]) ensures !Intrudes(e, e2) {
        assert IsBaseOf(TickBase(y, e2), y, e2);
        TickIntruders(y, e, y, e2);
      }
    } else {
      var k, b :| k in db && GoodBase(b) && Owns(b, k, db[k]) && Intrudes(base, b);
      var e2 := IntruderIsTicks(y, e, b);
      assert Owns(TickBase(y, e2), k, db[k]);
    }
  }

  /** So where all exchanges are written in characters behind '=', such as letters, each is. */
  lemma LettersIsolate(db: Db, y: string, e: string)
    requires GoodSymbol(y) && GoodExchange(e)
    requires forall k, e2 :: k in db && GoodExchange(e2) && Owns(TickBase(y, e2), k, db[k]) ==>
               forall i :: 0 <= i < |e2| ==> e2[i] > '='
    ensures Isolated(db, TickBase(y, e))
  {
    hide Owns, Isolated;
    TicksIsolatedIff(db, y, e);
  }

  lemma IntruderIsTicks(y: string, e: string, b: string) returns (e2: string)
    requires GoodSymbol(y) && GoodExchange(e) && GoodBase(b) && Intrudes(TickBase(y, e), b)
    ensures GoodExchange(e2) && b == TickBase(y, e2) && Intrudes(e, e2)
  {
    var a := TickBase(y, e);
    assert IsBaseOf(a, y, e);
    var y', e', rest := BaseExtended(a, b);
    SameTickBase(y, e, y', e');
    e2 := e + rest;
  }

  lemma KeyShape(r: Record)
    requires IsSeriesRecord(r)
    ensures KeyOf(r) == BaseOf(r) + ("-" + r.date + "-" + r.time)
    ensures Less(FirstKey(BaseOf(r)), KeyOf(r)) && Less(KeyOf(r), LastKey(BaseOf(r)))
  {
    SentinelsBracket(BaseOf(r), r.date, r.time);
  }

  // ---------------------------------------------------------------- chronological lists

  datatype Bound = Unbounded | At(date: string, time: string)

  /** A record of this series not before `lo` and not after `hi`. */
  predicate InWindow(r: Record, base: string, lo: Bound, hi: Bound) {
    && IsSeriesRecord(r) && BaseOf(r) == base
    && (lo.At? ==> !Before(r.date, r.time, lo.date, lo.time))
    && (hi.At? ==> !Before(hi.date, hi.time, r.date, r.time))
  }

  predicate Earlier(a: Record, b: Record) {
    IsSeriesRecord(a) && IsSeriesRecord(b) && Before(a.date, a.time, b.date, b.time)
  }

  ghost predicate Chronological(rs: seq<Record>) {
    && (forall i :: 0 <= i < |rs| ==> IsSeriesRecord(rs[i]))
    && (forall i, j :: 0 <= i < j < |rs| ==> Earlier(rs[i], rs[j]))
  }

  predicate EarlierThan(r: Record, date: string, time: string) {
    IsSeriesRecord(r) && Before(r.date, r.time, date, time)
  }

  predicate LaterThan(r: Record, date: string, time: string) {
    IsSeriesRecord(r) && Before(date, time, r.date, r.time)
  }

  predicate IsAt(r: Record, date: string, time: string) {
    IsSeriesRecord(r) && r.date == date && r.time == time
  }

  /** `rs` is exactly the window's records, oldest first; being strictly ascending, each once. */
  ghost predicate Lists(rs: seq<Record>, db: Db, base: string, lo: Bound, hi: Bound) {
    && Chronological(rs)
    && forall r :: r in rs <==> r in db.Values && InWindow(r, base, lo, hi)
  }

  /** An ascending key list that holds a window's keys lists its records. */
  lemma KeysList(db: Db, base: string, lo: Bound, hi: Bound, ks: seq<string>)
    requires WellFormed(db) && GoodBase(base) && Ascending(ks)
    requires forall k :: k in ks ==> k in db
    requires forall k :: k in db ==> (k in ks <==> InWindow(db[k], base, lo, hi))
    ensures Lists(Values(db, ks), db, base, lo, hi)
  {
    hide Less, Values, Shape, BaseOf, Before;
    var rs := Values(db, ks);
    forall i, j | 0 <= i < j < |rs| ensures Earlier(rs[i], rs[j]) {
      assert ks[i] in ks && ks[j] in ks;
      SameSeriesOrder(db, base, ks[i], ks[j]);
    }
    forall r ensures r in rs <==> r in db.Values && InWindow(r, base, lo, hi) {
      if r in rs {
        var i :| 0 <= i < |rs| && rs[i] == r;
        assert ks[i] in ks;
      }
      if r in db.Values && InWindow(r, base, lo, hi) {
        var k :| k in db && db[k] == r;
        assert k in ks;
        var i :| 0 <= i < |ks| && ks[i] == k;
        assert rs[i] == r;
      }
    }
  }

  /** A series record stands under its own key. */
  lemma OwnKey(db: Db, k: string)
    requires WellFormed(db) && k in db && IsSeriesRecord(db[k])
    ensures GoodRecord(db[k]) && k == KeyOf(db[k])
  {
    assert Shape(k, db[k]);
  }

  lemma SameSeriesOrder(db: Db, base: string, k1: string, k2: string)
    requires WellFormed(db) && k1 in db && k2 in db
    requires IsSeriesRecord(db[k1]) && BaseOf(db[k1]) == base
    requires IsSeriesRecord(db[k2]) && BaseOf(db[k2]) == base
    ensures Less(k1, k2) <==> Earlier(db[k1], db[k2])
  {
    hide Less, BaseOf, RecordKey, Before;
    OwnKey(db, k1);
    OwnKey(db, k2);
    RecordKeyOrder(base, db[k1].date, db[k1].time, db[k2].date, db[k2].time);
  }

  // ---------------------------------------------------------------- the three scans

  lemma KeyAgainstBound(r: Record, base: string, date: string, time: string)
    requires GoodRecord(r) && BaseOf(r) == base && GoodDate(date)
    ensures Leq(RecordKey(base, date, time), KeyOf(r)) <==> !Before(r.date, r.time, date, time)
    ensures Leq(KeyOf(r), RecordKey(base, date, time)) <==> !Before(date, time, r.date, r.time)
  {
    hide Less, RecordKey, BaseOf, Before;
    var k, b := KeyOf(r), RecordKey(base, date, time);
    RecordKeyOrder(base, r.date, r.time, date, time);
    RecordKeyOrder(base, date, time, r.date, r.time);
    LessTotal(k, b);
    if Less(k, b) { LessAsymmetric(k, b); }
    if Less(b, k) { LessAsymmetric(b, k); }
    LessIrreflexive(k);
  }

  /** Between two moments of a series stand its own records only, isolated or not. */
  lemma BetweenMoments(db: Db, base: string, d1: string, t1: string, d2: string, t2: string, k: string)
    requires WellFormed(db) && GoodBase(base) && k in db
    requires Leq(RecordKey(base, d1, t1), k) && Leq(k, RecordKey(base, d2, t2))
    ensures IsSeriesRecord(db[k]) && BaseOf(db[k]) == base
  {
    hide Less, FirstKey, LastKey, Shape, BaseOf, GoodBase, WellFormed, Owns;
    SentinelsBracket(base, d1, t1);
    SentinelsBracket(base, d2, t2);
    LeqTransitive(FirstKey(base), RecordKey(base, d1, t1), k);
    LeqTransitive(k, RecordKey(base, d2, t2), LastKey(base));
    var b := OwnerOf(db, base, k);
    var rest := OwnedKey(db, b, k);
    assert RecordKey(base, d1, t1) == (base + "-") + (d1 + "-" + t1);
    assert RecordKey(base, d2, t2) == (base + "-") + (d2 + "-" + t2);
    BetweenHasPrefix(base + "-", d1 + "-" + t1, k, d2 + "-" + t2);
    DashOnlyOwn(base, b, rest);
  }

  /** A key range of a series is a time window of it. */
  lemma WindowKeys(db: Db, base: string, fromDate: string, fromTime: string, toDate: string, toTime: string, k: string)
    requires WellFormed(db) && GoodBase(base) && GoodDate(fromDate) && GoodDate(toDate) && k in db
    ensures Leq(RecordKey(base, fromDate, fromTime), k) && Leq(k, RecordKey(base, toDate, toTime)) <==>
            InWindow(db[k], base, At(fromDate, fromTime), At(toDate, toTime))
  {
    hide Less, RecordKey, Shape, BaseOf, Before, GoodBase, GoodDate;
    if Leq(RecordKey(base, fromDate, fromTime), k) && Leq(k, RecordKey(base, toDate, toTime)) {
      BetweenMoments(db, base, fromDate, fromTime, toDate, toTime, k);
    }
    if IsSeriesRecord(db[k]) && BaseOf(db[k]) == base {
      OwnKey(db, k);
      KeyAgainstBound(db[k], base, fromDate, fromTime);
      KeyAgainstBound(db[k], base, toDate, toTime);
    }
  }

  /** from + to: exactly the records of the series in the window, with or without sentinels, and
      whatever other series sort between them. */
  lemma FromToExact(db: Db, base: string, fromDate: string, fromTime: string, toDate: string, toTime: string)
    requires WellFormed(db) && GoodBase(base) && GoodDate(fromDate) && GoodDate(toDate)
    ensures Lists(FromTo(db, base, fromDate, fromTime, toDate, toTime), db, base, At(fromDate, fromTime), At(toDate, toTime))
  {
    hide Less, RecordKey, KeysBetween, Values, Shape, InWindow, GoodBase, GoodDate;
    var ks := KeysBetween(db, RecordKey(base, fromDate, fromTime), RecordKey(base, toDate, toTime));
    forall k | k in db ensures k in ks <==> InWindow(db[k], base, At(fromDate, fromTime), At(toDate, toTime)) {
      WindowKeys(db, base, fromDate, fromTime, toDate, toTime, k);
    }
    KeysList(db, base, At(fromDate, fromTime), At(toDate, toTime), ks);
  }

  /** from + count: the first `count` records at or after the start, exactly if the series' last
      sentinel is in place, or no more records are asked for than there are, or no key of the
      store sorts behind the sentinel's. */
  lemma FromCountExact(db: Db, base: string, fromDate: string, fromTime: string, count: int) returns (all: seq<Record>)
    requires WellFormed(db) && GoodBase(base) && Isolated(db, base) && GoodDate(fromDate)
    ensures Lists(all, db, base, At(fromDate, fromTime), Unbounded)
    ensures FromCount(db, base, fromDate, fromTime, count) == Take(all, count) <==>
            || LastKey(base) in db
            || count <= |all|
            || forall k :: k in db ==> !Less(LastKey(base), k)
  {
    hide Isolated, Less, RecordKey, FirstKey, LastKey, KeysFrom, KeysWithin, Values, Shape, BaseOf, Before,
         GoodBase, GoodDate;
    var lo, last := RecordKey(base, fromDate, fromTime), LastKey(base);
    SentinelsBracket(base, fromDate, fromTime);
    var ks := KeysWithin(db, lo, last);
    forall k | k in db ensures Leq(lo, k) && Less(k, last) <==> InWindow(db[k], base, At(fromDate, fromTime), Unbounded) {
      if Leq(lo, k) && Less(k, last) {
        LeqTransitive(FirstKey(base), lo, k);
        OnlyOwnRecords(db, base, k);
      }
      if IsSeriesRecord(db[k]) && BaseOf(db[k]) == base {
        OwnKey(db, k);
        KeyShape(db[k]);
        KeyAgainstBound(db[k], base, fromDate, fromTime);
      }
    }
    KeysList(db, base, At(fromDate, fromTime), Unbounded, ks);
    all := Values(db, ks);
    ForwardKeys(db, lo, last);
    TakeSameIff(db, KeysFrom(db, lo, last), ks, count);
  }

  /** The keys from lo to before last. */
  ghost function KeysWithin(db: Db, lo: string, last: string): (ks: seq<string>)
    ensures Ascending(ks)
    ensures forall k :: k in ks <==> k in db && Leq(lo, k) && Less(k, last)
  {
    SortedKeys(set k | k in db && Leq(lo, k) && Less(k, last))
  }

  /** A forward scan meets the keys before the sentinel's first, and goes on behind it only if the
      sentinel is missing. */
  lemma ForwardKeys(db: Db, lo: string, last: string)
    requires Less(lo, last)
    ensures KeysWithin(db, lo, last) <= KeysFrom(db, lo, last)
    ensures KeysWithin(db, lo, last) == KeysFrom(db, lo, last) <==>
              last in db || forall k :: k in db ==> !Less(last, k)
  {
    hide Less, KeysWithin, KeysFrom, SortedKeys;
    var ks, met := KeysWithin(db, lo, last), KeysFrom(db, lo, last);
    LessIrreflexive(last);
    if last in db {
      AscendingUnique(ks, met);
    } else {
      var n := Below(met, last);
      forall k ensures k in ks <==> k in met[..n] {
        if k in db && Leq(lo, k) {
          assert k in met;
          var j :| 0 <= j < |met| && met[j] == k;
          if j < n { assert met[..n][j] == k; }
        }
        if k in met[..n] {
          var j :| 0 <= j < n && met[..n][j] == k;
        }
      }
      AscendingUnique(ks, met[..n]);
      if n < |met| {
        assert met[n] in met;
        LessTotal(met[n], last);
      }
      forall k | k in db && Less(last, k) ensures k in met && k !in ks {
        LeqTransitive(lo, last, k);
        if Less(k, last) { LessAsymmetric(k, last); }
      }
    }
  }

  /** How many of some ascending keys sort before a bound: they come first. */
  lemma {:induction false} Below(keys: seq<string>, bound: string) returns (n: nat)
    requires Ascending(keys)
    ensures n <= |keys|
    ensures forall j :: 0 <= j < |keys| ==> (j < n <==> Less(keys[j], bound))
  {
    hide Less;
    n := 0;
    while n < |keys| && Less(keys[n], bound)
      invariant n <= |keys|
      invariant forall j :: 0 <= j < n ==> Less(keys[j], bound)
    {
      n := n + 1;
    }
    forall j | n <= j < |keys| ensures !Less(keys[j], bound) {
      if j > n && Less(keys[j], bound) { LessTransitive(keys[n], keys[j], bound); }
    }
  }

  lemma TakeSameIff(db: Db, met: seq<string>, ks: seq<string>, count: int)
    requires ks <= met && forall k :: k in met ==> k in db
    ensures forall k :: k in ks ==> k in db
    ensures Values(db, Take(met, count)) == Take(Values(db, ks), count) <==> ks == met || count <= |ks|
  {
    hide Values;
    var a, b := Take(met, count), Take(ks, count);
    assert ks == met[..|ks|];
    assert |Values(db, a)| == |a| && |Take(Values(db, ks), count)| == |b|;
    if ks == met || count <= |ks| {
      assert a == b;
      ValuesTake(db, ks, count);
    } else {
      assert |a| > |b|;
    }
  }

  lemma ValuesTake(db: Db, keys: seq<string>, n: int)
    requires forall k :: k in keys ==> k in db
    ensures Values(db, Take(keys, n)) == Take(Values(db, keys), n)
    ensures Values(db, TakeLast(keys, n)) == TakeLast(Values(db, keys), n)
  {
    hide Values;
  }

  /** With c the first key at or after `to`, a backward walk meets exactly the keys up to c. */
  lemma ReachedUpToCeiling(db: Db, to: string, c: string, k: string)
    requires c in db && Leq(to, c) && forall x :: x in db && Leq(to, x) ==> Leq(c, x)
    ensures ReachedBackFrom(db, to, k) <==> Leq(k, c)
  {
    hide Less;
    if ReachedBackFrom(db, to, k) {
      var d :| d in db && Leq(to, d) && Leq(k, d) && (forall x :: x in db && Leq(to, x) ==> Leq(d, x));
      LeqTransitive(k, d, c);
    }
  }

  /** The keys strictly between two sentinels, in order. */
  ghost function KeysInside(db: Db, first: string, last: string): (ks: seq<string>)
    ensures Ascending(ks)
    ensures forall k :: k in ks <==> k in db && Less(first, k) && Less(k, last)
  {
    SortedKeys(set k | k in db && Less(first, k) && Less(k, last))
  }

  lemma SeriesKeysList(db: Db, base: string)
    requires WellFormed(db) && GoodBase(base) && Isolated(db, base)
    ensures Lists(Values(db, KeysInside(db, FirstKey(base), LastKey(base))), db, base, Unbounded, Unbounded)
  {
    hide Isolated, Less, FirstKey, LastKey, KeysInside, Values, Shape, BaseOf, GoodBase;
    var ks := KeysInside(db, FirstKey(base), LastKey(base));
    forall k | k in db ensures k in ks <==> InWindow(db[k], base, Unbounded, Unbounded) {
      if k in ks { OnlyOwnRecords(db, base, k); }
      if IsSeriesRecord(db[k]) && BaseOf(db[k]) == base {
        OwnKey(db, k);
        KeyShape(db[k]);
      }
    }
    KeysList(db, base, Unbounded, Unbounded, ks);
  }

  function Upto<T>(s: seq<T>, i: nat): seq<T>
    requires i <= |s|
  {
    if i < |s| then s[..i + 1] else s
  }

  /** A backward scan selects the series keys up to and including the first at or after `to`. */
  lemma BackwardKeys(db: Db, to: string, first: string, last: string, ks: seq<string>, i: nat)
    requires first in db && last in db && Less(first, to) && Less(to, last)
    requires ks == KeysInside(db, first, last)
    requires i == Seek(ks, to)
    ensures KeysUpTo(db, to, first, last) == Upto(ks, i)
  {
    hide Less, KeysInside, KeysUpTo, Seek, ReachedBackFrom;
    var c := if i < |ks| then ks[i] else last;
    assert c in db && Leq(to, c) by { if i < |ks| { assert ks[i] in ks; } }
    assert Leq(c, last);
    forall x | x in db && Leq(to, x) ensures Leq(c, x) { CeilingIsLeast(db, to, first, last, ks, i, x); }
    var got, want := KeysUpTo(db, to, first, last), Upto(ks, i);
    assert forall j :: 0 <= j < |want| ==> want[j] == ks[j];
    forall k ensures k in got <==> k in want {
      if k in db {
        ReachedUpToCeiling(db, to, c, k);
        UptoMembers(db, to, first, last, ks, i, k);
      } else {
        assert k !in ks;
      }
    }
    AscendingUnique(got, want);
  }

  lemma CeilingIsLeast(db: Db, to: string, first: string, last: string, ks: seq<string>, i: nat, x: string)
    requires Less(first, to) && Less(to, last) && x in db && Leq(to, x)
    requires ks == KeysInside(db, first, last)
    requires i == Seek(ks, to)
    ensures Leq(if i < |ks| then ks[i] else last, x)
  {
    hide Less, KeysInside, Seek;
    LeqTransitive(first, to, x);
    LessTotal(x, last);
    if Less(x, last) {
      assert x in ks;
      var m :| 0 <= m < |ks| && ks[m] == x;
      if m < i {
        LeqTransitive(to, x, to);
        LessIrreflexive(to);
      }
    } else if i < |ks| {
      assert ks[i] in ks;
      LeqTransitive(ks[i], last, x);
    }
  }

  lemma UptoMembers(db: Db, to: string, first: string, last: string, ks: seq<string>, i: nat, k: string)
    requires Less(first, to) && Less(to, last) && k in db
    requires ks == KeysInside(db, first, last)
    requires i == Seek(ks, to)
    ensures k in Upto(ks, i) <==> Leq(k, if i < |ks| then ks[i] else last) && k != last && Less(first, k)
  {
    hide Less, KeysInside, Seek, Ascending;
    LessIrreflexive(last);
    if k in ks {
      UptoPosition(ks, i, k);
    } else {
      assert k !in Upto(ks, i);
      assert !(Less(first, k) && Less(k, last));
      if i < |ks| {
        assert ks[i] in ks;
        if Leq(k, ks[i]) { LeqTransitive(k, ks[i], last); }
      }
    }
  }

  lemma UptoPosition(ks: seq<string>, i: nat, k: string)
    requires Ascending(ks) && i <= |ks| && k in ks
    ensures i < |ks| ==> (k in Upto(ks, i) <==> Leq(k, ks[i]))
    ensures i == |ks| ==> k in Upto(ks, i)
  {
    hide Less;
    var m :| 0 <= m < |ks| && ks[m] == k;
    AscendingDistinct(ks);
    if m <= i {
      assert Upto(ks, i)[m] == k;
    } else {
      LessAsymmetric(ks[i], ks[m]);
      assert forall j :: 0 <= j < |Upto(ks, i)| ==> Upto(ks, i)[j] == ks[j] && ks[j] != ks[m];
    }
  }

  /** count + to: the last `count` records up to and including the first one at or after `to`. */
  lemma CountToExact(db: Db, base: string, date: string, time: string, count: int) returns (all: seq<Record>, i: nat)
    requires WellFormed(db) && GoodBase(base) && Isolated(db, base) && GoodDate(date)
    requires FirstKey(base) in db && LastKey(base) in db
    ensures Lists(all, db, base, Unbounded, Unbounded) && i <= |all|
    ensures forall m :: 0 <= m < |all| ==> (EarlierThan(all[m], date, time) <==> m < i)
    ensures CountTo(db, base, date, time, count) == TakeLast(Upto(all, i), count)
  {
    hide Isolated, Less, RecordKey, FirstKey, LastKey, KeysInside, Seek, Values, Shape, BaseOf, Before, GoodBase,
         GoodDate, KeysUpTo;
    var to := RecordKey(base, date, time);
    SentinelsBracket(base, date, time);
    var ks := KeysInside(db, FirstKey(base), LastKey(base));
    i := Seek(ks, to);
    all := Values(db, ks);
    SeriesKeysList(db, base);
    forall m | 0 <= m < |all|
      ensures EarlierThan(all[m], date, time) <==> m < i
    {
      assert ks[m] in ks && all[m] == db[ks[m]];
      OnlyOwnRecords(db, base, ks[m]);
      KeyAgainstBound(all[m], base, date, time);
      LessTotal(ks[m], to);
      if Less(ks[m], to) { LessAsymmetric(ks[m], to); }
    }
    BackwardKeys(db, to, FirstKey(base), LastKey(base), ks, i);
    ValuesTake(db, Upto(ks, i), count);
    ValuesUpto(db, ks, i);
  }

  lemma ValuesUpto(db: Db, keys: seq<string>, i: nat)
    requires i <= |keys| && forall k :: k in keys ==> k in db
    ensures Values(db, Upto(keys, i)) == Upto(Values(db, keys), i)
  {
    hide Values;
  }

  /** The list holds at most one record at the moment itself, right after the earlier ones. */
  lemma AtTheMoment(all: seq<Record>, date: string, time: string, i: nat, h: nat)
    requires Chronological(all) && i <= |all| && h <= |all|
    requires forall m :: 0 <= m < |all| ==> (EarlierThan(all[m], date, time) <==> m < i)
    requires forall m :: 0 <= m < |all| ==> (LaterThan(all[m], date, time) <==> h <= m)
    ensures i <= h <= i + 1
    ensures forall m :: 0 <= m < |all| ==> (IsAt(all[m], date, time) <==> i <= m < h)
  {
    hide Before;
    forall m | 0 <= m < |all|
      ensures !(EarlierThan(all[m], date, time) && LaterThan(all[m], date, time))
      ensures IsAt(all[m], date, time) <==> !EarlierThan(all[m], date, time) && !LaterThan(all[m], date, time)
    {
      BeforeOrder(all[m].date, all[m].time, date, time);
    }
    forall m, n | 0 <= m < n < |all| ensures !(IsAt(all[m], date, time) && IsAt(all[n], date, time)) {
      assert Earlier(all[m], all[n]);
      BeforeOrder(date, time, date, time);
    }
    assert i < |all| ==> !EarlierThan(all[i], date, time);
    assert h < |all| ==> LaterThan(all[h], date, time);
    assert i > 0 ==> EarlierThan(all[i - 1], date, time);
    assert h > 0 ==> !LaterThan(all[h - 1], date, time);
  }

  lemma BeforeOrder(d1: string, t1: string, d2: string, t2: string)
    ensures !(Before(d1, t1, d2, t2) && Before(d2, t2, d1, t1))
    ensures Before(d1, t1, d2, t2) || Before(d2, t2, d1, t1) || (d1 == d2 && t1 == t2)
    ensures d1 == d2 && t1 == t2 ==> !Before(d1, t1, d2, t2)
  {
    hide Less;
    LessTotal(d1, d2);
    LessTotal(t1, t2);
    if Less(d1, d2) { LessAsymmetric(d1, d2); }
    if Less(t1, t2) { LessAsymmetric(t1, t2); }
    LessIrreflexive(d1);
    LessIrreflexive(t1);
  }

  lemma OneMoreDiffers(s: seq<Record>, h: nat, count: int)
    requires h < |s| && count > 0
    requires h > 0 ==> s[h - 1] != s[h]
    ensures TakeLast(s[..h + 1], count) != TakeLast(s[..h], count)
  {
    var a, b := TakeLast(s[..h + 1], count), TakeLast(s[..h], count);
    assert a[|a| - 1] == s[h];
    if h > 0 { assert b[|b| - 1] == s[h - 1]; }
  }

  lemma UptoMeetsIff(all: seq<Record>, i: nat, h: nat, count: int)
    requires i <= h <= i + 1 && h <= |all|
    requires i == h && 0 < h < |all| ==> all[h - 1] != all[h]
    ensures TakeLast(Upto(all, i), count) == TakeLast(all[..h], count) <==> count <= 0 || i < h || h == |all|
  {
    hide TakeLast;
    if i < h {
      assert Upto(all, i) == all[..h];
    } else if h == |all| {
      assert Upto(all, i) == all == all[..h];
    } else if count > 0 {
      OneMoreDiffers(all, h, count);
    } else {
      NothingTaken(Upto(all, i), all[..h], count);
    }
  }

  lemma NothingTaken(a: seq<Record>, b: seq<Record>, count: int)
    requires count <= 0
    ensures TakeLast(a, count) == TakeLast(b, count)
  {
  }

  /** "The last `count` records up to `to`" is what count + to returns exactly when nothing is
      asked for, or the moment `to` is stored, or nothing later is; otherwise the first later
      record comes along. */
  lemma CountToMeetsLastUntilIff(db: Db, base: string, date: string, time: string, count: int, all: seq<Record>, h: nat)
    requires WellFormed(db) && GoodBase(base) && Isolated(db, base) && GoodDate(date)
    requires FirstKey(base) in db && LastKey(base) in db
    requires Lists(all, db, base, Unbounded, Unbounded) && h <= |all|
    requires forall m :: 0 <= m < |all| ==> (LaterThan(all[m], date, time) <==> h <= m)
    ensures CountTo(db, base, date, time, count) == TakeLast(all[..h], count) <==>
            || count <= 0
            || (exists r :: r in all && IsAt(r, date, time))
            || h == |all|
  {
    hide Isolated, TakeLast, Upto, EarlierThan, IsAt, LaterThan, Less, FirstKey, LastKey, Shape, Before, GoodBase, GoodDate, CountTo;
    var all', i := CountToExact(db, base, date, time, count);
    ListsUnique(db, base, Unbounded, Unbounded, all, all');
    AtTheMoment(all, date, time, i, h);
    if i < h { assert all[i] in all && IsAt(all[i], date, time); }
    if r :| r in all && IsAt(r, date, time) {
      var m :| 0 <= m < |all| && all[m] == r;
    }
    assert i == h && 0 < h < |all| ==> EarlierThan(all[h - 1], date, time) && !EarlierThan(all[h], date, time);
    UptoMeetsIff(all, i, h, count);
  }

  /** A window has one list. */
  lemma {:induction false} ChronologicalUnique(a: seq<Record>, b: seq<Record>)
    requires Chronological(a) && Chronological(b)
    requires forall r :: r in a <==> r in b
    ensures a == b
  {
    hide Before;
    assert |a| == 0 || a[0] in b;
    assert |b| == 0 || b[0] in a;
    if a != [] && b != [] {
      if a[0] != b[0] {
        assert Earlier(b[0], a[0]) && Earlier(a[0], b[0]);
        BeforeOrder(a[0].date, a[0].time, b[0].date, b[0].time);
      }
      forall r ensures r in a[1..] <==> r in b[1..] {
        assert r in a <==> r == a[0] || r in a[1..];
        assert r in b <==> r == b[0] || r in b[1..];
        BeforeOrder(a[0].date, a[0].time, a[0].date, a[0].time);
      }
      ChronologicalUnique(a[1..], b[1..]);
      assert a == [a[0]] + a[1..] && b == [b[0]] + b[1..];
    }
  }

  lemma ListsUnique(db: Db, base: string, lo: Bound, hi: Bound, a: seq<Record>, b: seq<Record>)
    requires Lists(a, db, base, lo, hi) && Lists(b, db, base, lo, hi)
    ensures a == b
  {
    hide InWindow;
    ChronologicalUnique(a, b);
  }
}
