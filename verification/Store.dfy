/** The tick, bar and contract store: an ordered key/value index scanned with a
    cursor. The index is a map; an iterator is the ascending list of its keys. */
module Store {
  import opened Lex
  import opened StoreKeys

  /** A stored value. The default message of any type serialises to nothing: Empty. */
  datatype Record = Empty
                  | TickRecord(symbol: string, exchange: string, date: string, time: string, body: int)
                  | BarRecord(symbol: string, exchange: string, period: Period, date: string, time: string, body: int)
                  | ContractRecord(symbol: string, exchange: string, name: string, body: int)

  type Db = map<string, Record>

  datatype RangeReq = RangeReq(symbol: string, exchange: string, fromDate: string, fromTime: string,
                               toDate: string, toTime: string, count: int)

  // ---------------------------------------------------------------- cursors

  /** Iterator::Seek: the first key not below `key`, or the end. */
  function Seek(keys: seq<string>, key: string): (i: nat)
    requires Ascending(keys)
    ensures i <= |keys|
    ensures forall j :: 0 <= j < i ==> Less(keys[j], key)
    ensures forall j :: i <= j < |keys| ==> Leq(key, keys[j])
  {
    if keys == [] then 0
    else if Leq(key, keys[0]) then
      SeekRest(keys, key);
      0
    else
      LessTotal(keys[0], key);
      1 + Seek(keys[1..], key)
  }

  lemma SeekRest(keys: seq<string>, key: string)
    requires Ascending(keys) && keys != [] && Leq(key, keys[0])
    ensures forall j :: 0 <= j < |keys| ==> Leq(key, keys[j])
  {
    forall j | 0 <= j < |keys| ensures Leq(key, keys[j]) {
      if j > 0 { LeqTransitive(key, keys[0], keys[j]); }
    }
  }

  /** The values under a list of keys. */
  function Values(db: Db, keys: seq<string>): (r: seq<Record>)
    requires forall k :: k in keys ==> k in db
    ensures |r| == |keys|
    ensures forall i :: 0 <= i < |keys| ==> r[i] == db[keys[i]]
  {
    if keys == [] then [] else Values(db, keys[..|keys| - 1]) + [db[keys[|keys| - 1]]]
  }

  /** A run of an ascending key list is the ascending list of the keys it holds. */
  lemma SliceIsSorted(keys: seq<string>, i: nat, j: nat, s: set<string>)
    requires Ascending(keys) && i <= j <= |keys|
    requires forall k :: k in s <==> k in keys[i..j]
    ensures keys[i..j] == SortedKeys(s)
  {
    AscendingUnique(keys[i..j], SortedKeys(s));
  }

  // ---------------------------------------------------------------- what the scans select

  /** The keys from `lo` to `hi`, both included, in order. */
  ghost function KeysBetween(db: Db, lo: string, hi: string): (ks: seq<string>)
    ensures Ascending(ks)
    ensures forall k :: k in ks <==> k in db && Leq(lo, k) && Leq(k, hi)
  {
    SortedKeys(set k | k in db && Leq(lo, k) && Leq(k, hi))
  }

  /** The keys from `lo` on; a last-sentinel in the index ends the list. */
  ghost function KeysFrom(db: Db, lo: string, last: string): (ks: seq<string>)
    ensures Ascending(ks)
    ensures forall k :: k in ks <==> k in db && Leq(lo, k) && (last in db ==> Less(k, last))
  {
    SortedKeys(set k | k in db && Leq(lo, k) && (last in db ==> Less(k, last)))
  }

  /** The keys up to and including the first one at or after `to`, none if there is no such
      key; a first-sentinel in the index starts the list, the last-sentinel is not listed. */
  ghost function KeysUpTo(db: Db, to: string, first: string, last: string): (ks: seq<string>)
    ensures Ascending(ks)
    ensures forall k :: k in ks <==> k in db && ReachedBackFrom(db, to, k) && k != last && (first in db ==> Less(first, k))
  {
    SortedKeys(set k | k in db && ReachedBackFrom(db, to, k) && k != last && (first in db ==> Less(first, k)))
  }

  /** Walking back from the first key at or after `to` meets `k`. */
  ghost predicate ReachedBackFrom(db: Db, to: string, k: string) {
    exists c :: c in db && Leq(to, c) && Leq(k, c) && (forall x :: x in db && Leq(to, x) ==> Leq(c, x))
  }

  function Take<T>(s: seq<T>, n: int): seq<T> {
    if n <= 0 then [] else if n < |s| then s[..n] else s
  }

  function TakeLast<T>(s: seq<T>, n: int): seq<T> {
    if n <= 0 then [] else if n < |s| then s[|s| - n..] else s
  }

  // ---------------------------------------------------------------- writes

  function DbInit(db: Db): Db {
    db[CONTRACT_FIRST := Empty][CONTRACT_LAST := Empty]
  }

  function InsertTick(db: Db, r: Record): Db
    requires r.TickRecord?
  {
    if r.symbol == [] || r.exchange == [] || r.date == [] || r.time == [] then db
    else db[RecordKey(TickBase(r.symbol, r.exchange), r.date, r.time) := r]
  }

  function InsertBar(db: Db, r: Record): Db
    requires r.BarRecord?
  {
    if r.symbol == [] || r.exchange == [] || r.date == [] || r.time == [] || r.period == UnknownPeriod then db
    else db[RecordKey(BarBase(r.symbol, r.exchange, r.period), r.date, r.time) := r]
  }

  const PERIODS: seq<Period> := [UnknownPeriod, S01, S03, S05, S10, S15, S30, M01, M03, M05, M10, M15, M30,
                                 H01, H02, H03, H04, D01, W01, X01]

  /** Sentinels of the bar series of the first n periods. */
  function BarSentinels(symbol: string, exchange: string, n: nat): Db
    requires n <= |PERIODS|
  {
    if n == 0 then map[]
    else
      var base := BarBase(symbol, exchange, PERIODS[n - 1]);
      BarSentinels(symbol, exchange, n - 1)[FirstKey(base) := Empty][LastKey(base) := Empty]
  }

  function TickSentinels(symbol: string, exchange: string): Db {
    map[FirstKey(TickBase(symbol, exchange)) := Empty][LastKey(TickBase(symbol, exchange)) := Empty]
  }

  function InsertContract(db: Db, r: Record): Db
    requires r.ContractRecord?
  {
    if r.symbol == [] || r.exchange == [] || r.name == [] then db
    else
      db[ContractKey(r.symbol, r.exchange) := r]
        + TickSentinels(r.symbol, r.exchange)
        + BarSentinels(r.symbol, r.exchange, |PERIODS|)
  }

  /** Everything from one key to another goes. */
  ghost function DeleteBetween(db: Db, lo: string, hi: string): Db {
    db - set k | k in db && Leq(lo, k) && Leq(k, hi)
  }

  predicate CompleteRange(req: RangeReq) {
    req.symbol != [] && req.exchange != [] && req.toDate != [] && req.toTime != [] && req.fromDate != [] && req.fromTime != []
  }

  ghost function DeleteTick(db: Db, req: RangeReq): Db {
    if !CompleteRange(req) then db
    else
      var base := TickBase(req.symbol, req.exchange);
      DeleteBetween(db, RecordKey(base, req.fromDate, req.fromTime), RecordKey(base, req.toDate, req.toTime))
  }

  /** deleteBar builds keys with the tick prefix. */
  function DeletedBarBase(symbol: string, exchange: string, period: Period): string {
    "tick-" + symbol + "-" + exchange + "-" + FormatPeriod(period)
  }

  ghost function DeleteBar(db: Db, req: RangeReq, period: Period): Db {
    if !CompleteRange(req) || period == UnknownPeriod then db
    else
      var base := DeletedBarBase(req.symbol, req.exchange, period);
      DeleteBetween(db, RecordKey(base, req.fromDate, req.fromTime), RecordKey(base, req.toDate, req.toTime))
  }

  /** What the star scans of the contract range step over: everything from the second key
      at or after the first sentinel. */
  ghost function AfterKey(db: Db, first: string): (ks: seq<string>)
    ensures forall k :: k in ks ==> k in db
  {
    var all := SortedKeys(set k | k in db && Leq(first, k));
    if all == [] then [] else all[1..]
  }

  function UpToKey(keys: seq<string>, stop: string): seq<string> {
    if keys == [] || keys[0] == stop then [] else [keys[0]] + UpToKey(keys[1..], stop)
  }

  ghost function DeleteContract(db: Db, symbol: string, exchange: string): Db {
    if symbol == [] || exchange == [] then db
    else if symbol == "*" && exchange == "*" then db - set k | k in UpToKey(AfterKey(db, CONTRACT_FIRST), CONTRACT_LAST)
    else db - {ContractKey(symbol, exchange)}
  }

  // ---------------------------------------------------------------- reads

  function SymbolOf(r: Record): string {
    if r.Empty? then [] else r.symbol
  }

  /** The records before the first one without a symbol. */
  function Named(rs: seq<Record>): seq<Record> {
    if rs == [] || SymbolOf(rs[0]) == [] then [] else [rs[0]] + Named(rs[1..])
  }

  ghost function FromTo(db: Db, base: string, fromDate: string, fromTime: string, toDate: string, toTime: string): seq<Record> {
    Values(db, KeysBetween(db, RecordKey(base, fromDate, fromTime), RecordKey(base, toDate, toTime)))
  }

  ghost function FromCount(db: Db, base: string, fromDate: string, fromTime: string, count: int): seq<Record> {
    Values(db, Take(KeysFrom(db, RecordKey(base, fromDate, fromTime), LastKey(base)), count))
  }

  ghost function CountTo(db: Db, base: string, toDate: string, toTime: string, count: int): seq<Record> {
    Values(db, TakeLast(KeysUpTo(db, RecordKey(base, toDate, toTime), FirstKey(base), LastKey(base)), count))
  }

  /** Which scan a request selects: both ends, an end and a count, or a start and a count. */
  ghost function Query(db: Db, base: string, req: RangeReq): seq<Record> {
    if req.toDate != [] && req.fromDate != [] then FromTo(db, base, req.fromDate, req.fromTime, req.toDate, req.toTime)
    else if req.toDate != [] then CountTo(db, base, req.toDate, req.toTime, req.count)
    else if req.fromDate != [] then FromCount(db, base, req.fromDate, req.fromTime, req.count)
    else []
  }

  ghost function GetTick(db: Db, req: RangeReq): seq<Record> {
    if req.symbol == [] || req.exchange == [] then [] else Query(db, TickBase(req.symbol, req.exchange), req)
  }

  ghost function GetBar(db: Db, req: RangeReq, period: Period): seq<Record> {
    if req.symbol == [] || req.exchange == [] || period == UnknownPeriod then []
    else Query(db, BarBase(req.symbol, req.exchange, period), req)
  }

  ghost function GetContract(db: Db, symbol: string, exchange: string): seq<Record> {
    if symbol == [] || exchange == [] then []
    else if symbol == "*" && exchange == "*" then Named(Values(db, AfterKey(db, CONTRACT_FIRST)))
    else
      var key := ContractKey(symbol, exchange);
      if key in db && SymbolOf(db[key]) != [] then [db[key]] else []
  }
}
