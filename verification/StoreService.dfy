/** The store service: cursor loops that refine the selections of module Store. */
module StoreService {
  import opened Lex
  import opened StoreKeys
  import opened Store

  /** A cursor that stopped at the end, past `hi` or at a sentinel above `hi` has nothing left up to `hi`. */
  lemma StoppedPast(keys: seq<string>, i: nat, hi: string, sentinel: string)
    requires Ascending(keys) && i <= |keys| && Less(hi, sentinel)
    requires i < |keys| ==> keys[i] == sentinel || !Leq(keys[i], hi)
    ensures forall j :: i <= j < |keys| ==> !Leq(keys[j], hi)
  {
    forall j | i <= j < |keys| ensures !Leq(keys[j], hi) {
      LessTotal(keys[i], hi);
      if Leq(keys[j], hi) {
        if keys[i] != keys[j] { LeqTransitive(keys[i], keys[j], hi); }
        LeqTransitive(keys[i], hi, sentinel);
        LessIrreflexive(sentinel);
      }
    }
  }

  /** A run of the key list is the sorted list of the keys that satisfy `p`, if `p` tells
      the positions inside the run from those outside. */
  lemma RunIsSorted(db: Db, keys: seq<string>, start: nat, end: nat, s: set<string>)
    requires keys == SortedKeys(db.Keys) && start <= end <= |keys| && s <= db.Keys
    requires forall j :: 0 <= j < |keys| ==> (keys[j] in s <==> start <= j < end)
    ensures keys[start..end] == SortedKeys(s)
  {
    hide Less, SortedKeys, Seek;
    forall k ensures k in s <==> k in keys[start..end] {
      if k in s {
        var j :| 0 <= j < |keys| && keys[j] == k;
        assert keys[start..end][j - start] == k;
      }
      if k in keys[start..end] {
        var j :| 0 <= j < end - start && keys[start..end][j] == k;
        assert keys[start + j] == k;
      }
    }
    SliceIsSorted(keys, start, end, s);
  }

  lemma NotBoth(a: string, b: string)
    ensures !(Less(a, b) && Leq(b, a))
    ensures Less(a, b) || Leq(b, a)
  {
    LessTotal(a, b);
    if Less(a, b) { LessAsymmetric(a, b); }
  }

  /** The keys from one bound to another. */
  lemma BetweenIsRun(db: Db, keys: seq<string>, lo: string, hi: string, end: nat)
    requires keys == SortedKeys(db.Keys) && Seek(keys, lo) <= end <= |keys|
    requires forall j :: Seek(keys, lo) <= j < end ==> Leq(keys[j], hi)
    requires forall j :: end <= j < |keys| ==> !Leq(keys[j], hi)
    ensures KeysBetween(db, lo, hi) == keys[Seek(keys, lo)..end]
  {
    hide Less, SortedKeys, Seek;
    var start := Seek(keys, lo);
    forall j | 0 <= j < |keys| ensures (Leq(lo, keys[j]) && Leq(keys[j], hi) <==> start <= j < end) {
      NotBoth(keys[j], lo);
    }
    RunIsSorted(db, keys, start, end, set k | k in db && Leq(lo, k) && Leq(k, hi));
  }

  /** A key of the index stands where Seek finds it. */
  lemma SeekFinds(db: Db, keys: seq<string>, key: string)
    requires keys == SortedKeys(db.Keys) && key in db
    ensures var i := Seek(keys, key); i < |keys| && keys[i] == key
    ensures forall j :: 0 <= j < |keys| ==> (Less(keys[j], key) <==> j < Seek(keys, key))
  {
    hide Less, SortedKeys, Seek;
    var i := Seek(keys, key);
    var m :| 0 <= m < |keys| && keys[m] == key;
    LessIrreflexive(key);
    if i < m {
      NotBoth(keys[i], key);
    }
    forall j | 0 <= j < |keys| ensures (Less(keys[j], key) <==> j < i) { NotBoth(keys[j], key); }
  }

  lemma FromIsRun(db: Db, keys: seq<string>, lo: string, last: string)
    requires keys == SortedKeys(db.Keys) && Less(lo, last)
    ensures var end := if last in db then Seek(keys, last) else |keys|;
            && Seek(keys, lo) <= end <= |keys|
            && KeysFrom(db, lo, last) == keys[Seek(keys, lo)..end]
            && (end < |keys| ==> keys[end] == last)
            && forall j :: Seek(keys, lo) <= j < end ==> keys[j] != last
  {
    hide Less, SortedKeys, Seek;
    var start := Seek(keys, lo);
    var end := if last in db then Seek(keys, last) else |keys|;
    if last in db {
      SeekFinds(db, keys, last);
      NotBoth(lo, last);
      LessIrreflexive(last);
    } else {
      forall j | 0 <= j < |keys| ensures keys[j] != last { assert keys[j] in keys; }
    }
    forall j | 0 <= j < |keys|
      ensures (Leq(lo, keys[j]) && (last in db ==> Less(keys[j], last)) <==> start <= j < end)
    {
      NotBoth(keys[j], lo);
    }
    if end < start {
      LessAsymmetric(last, lo);
    }
    RunIsSorted(db, keys, start, end, set k | k in db && Leq(lo, k) && (last in db ==> Less(k, last)));
  }

  /** Inside the backward run stand neither sentinel; just before it, the first one if present. */
  lemma BackRunEdges(db: Db, keys: seq<string>, to: string, first: string, last: string)
    requires keys == SortedKeys(db.Keys) && Less(first, to) && Less(to, last)
    requires Seek(keys, to) < |keys|
    ensures var (start, end) := BackRun(db, keys, to, first, last);
            && start <= end
            && (forall j :: start <= j < end ==> keys[j] != first && keys[j] != last)
            && (start > 0 ==> keys[start - 1] == first)
            && (Seek(keys, to) == end ==> keys[end] == last)
  {
    hide Less, SortedKeys, Seek, Ascending;
    var c := Seek(keys, to);
    var (start, end) := BackRun(db, keys, to, first, last);
    if first in db {
      SeekFinds(db, keys, first);
      NotBoth(first, to);
      LeqTransitive(first, to, last);
      LessIrreflexive(first);
    }
    forall j | start <= j < end ensures keys[j] != first && keys[j] != last {
      if first in db { AfterFirst(db, keys, first, j); }
      NotASentinel(db, keys, to, first, last, j);
    }
  }

  lemma NotASentinel(db: Db, keys: seq<string>, to: string, first: string, last: string, j: nat)
    requires keys == SortedKeys(db.Keys) && Less(to, last) && j < |keys| && Seek(keys, to) < |keys|
    requires j < Seek(keys, to) || (j == Seek(keys, to) && keys[j] != last)
    requires first in db ==> Less(first, keys[j])
    ensures keys[j] != first && keys[j] != last
  {
    hide Less, SortedKeys, Seek, Ascending;
    assert keys[j] in db;
    LessIrreflexive(first);
    if j < Seek(keys, to) {
      LeqTransitive(keys[j], to, last);
      LessIrreflexive(last);
    }
  }

  /** A cursor that starts above the first sentinel does not meet it. */
  lemma NoFirstFrom(db: Db, keys: seq<string>, lo: string, first: string)
    requires keys == SortedKeys(db.Keys) && Less(first, lo)
    ensures forall j :: Seek(keys, lo) <= j < |keys| ==> keys[j] != first
  {
    hide Less, SortedKeys, Seek, Ascending;
    NotBoth(first, lo);
  }

  /** Walking back from the key sought: the run between the two sentinels. */
  lemma UpToIsRun(db: Db, keys: seq<string>, to: string, first: string, last: string)
    requires keys == SortedKeys(db.Keys) && Less(first, to) && Less(to, last)
    requires Seek(keys, to) < |keys|
    ensures var (start, end) := BackRun(db, keys, to, first, last);
            start <= end <= |keys| && KeysUpTo(db, to, first, last) == keys[start..end]
  {
    hide Less, SortedKeys, Seek, ReachedBackFrom, Ascending;
    BackRunEdges(db, keys, to, first, last);
    var (start, end) := BackRun(db, keys, to, first, last);
    var s := set k | k in db && ReachedBackFrom(db, to, k) && k != last && (first in db ==> Less(first, k));
    forall j | 0 <= j < |keys| ensures (keys[j] in s <==> start <= j < end) {
      ReachedUpTo(db, keys, to, j);
      assert keys[j] in db;
      if first in db { AfterFirst(db, keys, first, j); }
    }
    RunIsSorted(db, keys, start, end, s);
  }

  lemma AfterFirst(db: Db, keys: seq<string>, first: string, j: nat)
    requires keys == SortedKeys(db.Keys) && first in db && j < |keys|
    ensures Less(first, keys[j]) <==> Seek(keys, first) < j
  {
    hide Less, SortedKeys, Seek;
    SeekFinds(db, keys, first);
    var f := Seek(keys, first);
    if f < j {
      assert Less(keys[f], keys[j]);
    } else {
      NotBoth(keys[j], first);
      LessIrreflexive(first);
      NotBoth(first, keys[j]);
    }
  }

  lemma ReachedUpTo(db: Db, keys: seq<string>, to: string, j: nat)
    requires keys == SortedKeys(db.Keys) && Seek(keys, to) < |keys| && j < |keys|
    ensures ReachedBackFrom(db, to, keys[j]) <==> j <= Seek(keys, to)
  {
    hide Less, SortedKeys, Seek;
    var c := Seek(keys, to);
    assert keys[c] in db && Leq(to, keys[c]);
    forall x | x in db && Leq(to, x) ensures Leq(keys[c], x) {
      var m :| 0 <= m < |keys| && keys[m] == x;
      NotBoth(keys[m], to);
    }
    if ReachedBackFrom(db, to, keys[j]) {
      var d :| d in db && Leq(to, d) && Leq(keys[j], d) && (forall x :: x in db && Leq(to, x) ==> Leq(d, x));
      assert Leq(d, keys[c]) && Leq(keys[c], d);
      NotBoth(d, keys[c]);
      if c < j { NotBoth(keys[c], keys[j]); }
    }
  }

  /** The positions a backward scan from `to` collects. */
  ghost function BackRun(db: Db, keys: seq<string>, to: string, first: string, last: string): (nat, nat)
    requires Ascending(keys) && Seek(keys, to) < |keys|
  {
    var c := Seek(keys, to);
    (if first in db then Seek(keys, first) + 1 else 0, if keys[c] == last then c else c + 1)
  }

  lemma BatchApplied(db: Db, key: string, r: Record, first: string, last: string, bars: Db)
    ensures db + (map[key := r][first := Empty][last := Empty] + bars) ==
            db[key := r] + map[first := Empty][last := Empty] + bars
  {
  }

  function Backwards<T>(s: seq<T>): (r: seq<T>)
    ensures |r| == |s|
    ensures forall j :: 0 <= j < |s| ==> r[j] == s[|s| - 1 - j]
  {
    if s == [] then [] else [s[|s| - 1]] + Backwards(s[..|s| - 1])
  }

  /** The records of the last `count` keys of a run. */
  ghost function LastOf(db: Db, keys: seq<string>, start: nat, end: nat, count: int): seq<Record>
    requires start <= end <= |keys| && forall k :: k in keys ==> k in db
  {
    Values(db, TakeLast(keys[start..end], count))
  }

  lemma CollectedIsLast(db: Db, keys: seq<string>, start: nat, end: nat, count: int, collected: seq<Record>)
    requires start <= end <= |keys| && forall k :: k in keys ==> k in db
    requires |collected| == if count <= 0 then 0 else if count < end - start then count else end - start
    requires forall j :: 0 <= j < |collected| ==> collected[j] == db[keys[end - 1 - j]]
    ensures Backwards(collected) == LastOf(db, keys, start, end, count)
  {
    hide Backwards, Values, TakeLast;
    var n := |collected|;
    LastOfRun(keys, start, end, count, n);
    RunBackwards(db, keys, end, n, collected, keys[end - n..end]);
  }

  lemma RunBackwards(db: Db, keys: seq<string>, end: nat, n: nat, collected: seq<Record>, run: seq<string>)
    requires n <= end <= |keys| && |collected| == n == |run|
    requires forall k :: k in keys ==> k in db
    requires forall j :: 0 <= j < n ==> run[j] == keys[end - n + j]
    requires forall j :: 0 <= j < n ==> collected[j] == db[keys[end - 1 - j]]
    ensures (forall k :: k in run ==> k in db) && Backwards(collected) == Values(db, run)
  {
    hide Backwards, Values;
    forall k | k in run ensures k in db {
      var j :| 0 <= j < n && run[j] == k;
      assert keys[end - n + j] in keys;
    }
    var l, r := Backwards(collected), Values(db, run);
    forall j | 0 <= j < n ensures l[j] == r[j] {
      assert l[j] == collected[n - 1 - j];
    }
  }

  lemma LastOfRun<T>(keys: seq<T>, start: nat, end: nat, count: int, n: nat)
    requires start <= end <= |keys|
    requires n == if count <= 0 then 0 else if count < end - start then count else end - start
    ensures TakeLast(keys[start..end], count) == keys[end - n..end]
  {
  }

  lemma DropOne<T>(s: seq<T>, i: nat)
    requires i <= |s|
    ensures s[i..|s|] == s[i..]
    ensures i < |s| ==> s[i..][1..] == s[i + 1..]
  {
  }

  /** The star scans start behind the key that Seek finds. */
  lemma AfterKeyIsRun(db: Db, keys: seq<string>, first: string, start: nat)
    requires keys == SortedKeys(db.Keys)
    requires var i := Seek(keys, first); start == if i < |keys| then i + 1 else i
    ensures start <= |keys| && AfterKey(db, first) == keys[start..]
    ensures forall j :: start <= j < |keys| ==> keys[j] != first
  {
    hide Less, SortedKeys, Seek, Ascending;
    var i := Seek(keys, first);
    forall j | 0 <= j < |keys| ensures (Leq(first, keys[j]) <==> i <= j < |keys|) {
      NotBoth(keys[j], first);
    }
    RunIsSorted(db, keys, i, |keys|, set k | k in db && Leq(first, k));
    DropOne(keys, i);
    NotAfter(db, keys, first, start);
  }

  lemma NotAfter(db: Db, keys: seq<string>, first: string, start: nat)
    requires keys == SortedKeys(db.Keys)
    requires var i := Seek(keys, first); start == if i < |keys| then i + 1 else i
    ensures forall j :: start <= j < |keys| ==> keys[j] != first
  {
    hide Less, SortedKeys, Seek;
    if first in db {
      SeekFinds(db, keys, first);
      AscendingDistinct(keys);
    } else {
      assert forall j :: start <= j < |keys| ==> keys[j] in db;
    }
  }

  lemma UpToKeyStep(keys: seq<string>, i: nat, stop: string)
    requires i < |keys|
    ensures UpToKey(keys[i..], stop) == if keys[i] == stop then [] else [keys[i]] + UpToKey(keys[i + 1..], stop)
  {
    assert keys[i..][0] == keys[i] && keys[i..][1..] == keys[i + 1..];
  }

  lemma UpToKeyEnd(keys: seq<string>, i: nat, stop: string)
    requires i <= |keys| && (i < |keys| ==> keys[i] == stop)
    ensures UpToKey(keys[i..], stop) == []
  {
  }

  lemma NextValue(db: Db, keys: seq<string>, start: nat, i: nat)
    requires start <= i < |keys| && forall k :: k in keys ==> k in db
    ensures Values(db, keys[start..i + 1]) == Values(db, keys[start..i]) + [db[keys[i]]]
  {
    assert keys[start..i + 1][..i - start] == keys[start..i];
  }

  lemma NamedStep(db: Db, keys: seq<string>, i: nat)
    requires i < |keys| && forall k :: k in keys ==> k in db
    ensures var r := db[keys[i]];
            Named(Values(db, keys[i..])) == if SymbolOf(r) == [] then [] else [r] + Named(Values(db, keys[i + 1..]))
  {
    var rest := Values(db, keys[i..]);
    assert rest[0] == db[keys[i]];
    assert rest[1..] == Values(db, keys[i + 1..]) by { hide Values, Named; }
  }

  lemma ValuesEnd(db: Db, keys: seq<string>, i: nat)
    requires i <= |keys| && forall k :: k in keys ==> k in db
    requires i < |keys| ==> SymbolOf(db[keys[i]]) == []
    ensures Named(Values(db, keys[i..])) == []
  {
    if i < |keys| { assert keys[i..][0] == keys[i]; }
  }

  class DbService {
    var db: Db

    constructor ()
      ensures db == Store.DbInit(map[])
    {
      db := map[];
      new;
      DbInit();
    }

    method DbInit()
      modifies this
      ensures db == Store.DbInit(old(db))
    {
      db := db[CONTRACT_FIRST := Empty];
      db := db[CONTRACT_LAST := Empty];
    }

    method CleanAll()
      modifies this
      ensures db == Store.DbInit(map[])
    {
      db := map[];
      DbInit();
    }

    method InsertTick(r: Record)
      requires r.TickRecord?
      modifies this
      ensures db == Store.InsertTick(old(db), r)
    {
      if r.symbol == [] || r.exchange == [] || r.date == [] || r.time == [] {
        return;
      }
      db := db[RecordKey(TickBase(r.symbol, r.exchange), r.date, r.time) := r];
    }

    method InsertBar(r: Record)
      requires r.BarRecord?
      modifies this
      ensures db == Store.InsertBar(old(db), r)
    {
      if r.symbol == [] || r.exchange == [] || r.date == [] || r.time == [] || r.period == UnknownPeriod {
        return;
      }
      db := db[RecordKey(BarBase(r.symbol, r.exchange, r.period), r.date, r.time) := r];
    }

    method InsertContract(r: Record)
      requires r.ContractRecord?
      modifies this
      ensures db == Store.InsertContract(old(db), r)
    {
      if r.symbol == [] || r.exchange == [] || r.name == [] {
        return;
      }
      hide TickBase, BarBase, FirstKey, LastKey, ContractKey, BarSentinels;
      var batch: Db := map[ContractKey(r.symbol, r.exchange) := r];
      batch := batch[FirstKey(TickBase(r.symbol, r.exchange)) := Empty];
      batch := batch[LastKey(TickBase(r.symbol, r.exchange)) := Empty];
      batch := PutBarSentinels(batch, r.symbol, r.exchange);
      BatchApplied(db, ContractKey(r.symbol, r.exchange), r, FirstKey(TickBase(r.symbol, r.exchange)),
                   LastKey(TickBase(r.symbol, r.exchange)), BarSentinels(r.symbol, r.exchange, |PERIODS|));
      db := db + batch;
    }

    /** Two sentinels for every bar period. */
    method PutBarSentinels(before: Db, symbol: string, exchange: string) returns (batch: Db)
      ensures batch == before + BarSentinels(symbol, exchange, |PERIODS|)
    {
      hide BarBase, FirstKey, LastKey;
      batch := before;
      for i := 0 to |PERIODS|
        invariant batch == before + BarSentinels(symbol, exchange, i)
      {
        var base := BarBase(symbol, exchange, PERIODS[i]);
        batch := batch[FirstKey(base) := Empty];
        batch := batch[LastKey(base) := Empty];
      }
    }

    method GetTick(req: RangeReq) returns (out: seq<Record>)
      ensures out == Store.GetTick(db, req)
    {
      out := [];
      if req.symbol == [] || req.exchange == [] {
        return;
      }
      out := GetRange(TickBase(req.symbol, req.exchange), req);
    }

    method GetBar(req: RangeReq, period: Period) returns (out: seq<Record>)
      ensures out == Store.GetBar(db, req, period)
    {
      out := [];
      if req.symbol == [] || req.exchange == [] || period == UnknownPeriod {
        return;
      }
      out := GetRange(BarBase(req.symbol, req.exchange, period), req);
    }

    method GetRange(base: string, req: RangeReq) returns (out: seq<Record>)
      ensures out == Query(db, base, req)
    {
      if req.toDate != [] && req.fromDate != [] {
        out := GetFromTo(base, req.fromDate, req.fromTime, req.toDate, req.toTime);
      } else if req.toDate != [] {
        out := GetCountTo(base, req.toDate, req.toTime, req.count);
      } else if req.fromDate != [] {
        out := GetFromCount(base, req.fromDate, req.fromTime, req.count);
      } else {
        out := [];
      }
    }

    method GetFromTo(base: string, fromDate: string, fromTime: string, toDate: string, toTime: string)
      returns (out: seq<Record>)
      ensures out == FromTo(db, base, fromDate, fromTime, toDate, toTime)
    {
      var fromKey := RecordKey(base, fromDate, fromTime);
      var toKey := RecordKey(base, toDate, toTime);
      var firstKey := FirstKey(base);
      var lastKey := LastKey(base);
      hide RecordKey, FirstKey, LastKey, Less, SortedKeys, Seek, Values, KeysBetween, KeysFrom, KeysUpTo,
           Ascending, BackRun, Backwards;
      SentinelsBracket(base, fromDate, fromTime);
      SentinelsBracket(base, toDate, toTime);
      LessAsymmetric(firstKey, fromKey);
      var keys := SortedKeys(db.Keys);
      var start := Seek(keys, fromKey);
      var i := start;
      out := [];
      while i < |keys|
        invariant start <= i <= |keys|
        invariant forall j :: start <= j < i ==> Leq(keys[j], toKey)
        invariant out == Values(db, keys[start..i])
      {
        var itKey := keys[i];
        if itKey == firstKey {
        } else if itKey == lastKey {
          break;
        } else if Leq(itKey, toKey) {
          out := out + [db[itKey]];
        } else {
          break;
        }
        NextValue(db, keys, start, i);
        i := i + 1;
      }
      StoppedPast(keys, i, toKey, lastKey);
      BetweenIsRun(db, keys, fromKey, toKey, i);
    }

    method GetFromCount(base: string, fromDate: string, fromTime: string, count: int) returns (out: seq<Record>)
      ensures out == FromCount(db, base, fromDate, fromTime, count)
    {
      var fromKey := RecordKey(base, fromDate, fromTime);
      var firstKey := FirstKey(base);
      var lastKey := LastKey(base);
      hide RecordKey, FirstKey, LastKey, Less, SortedKeys, Seek, Values, KeysBetween, KeysFrom, KeysUpTo,
           Ascending, BackRun, Backwards;
      SentinelsBracket(base, fromDate, fromTime);
      LessAsymmetric(firstKey, fromKey);
      var keys := SortedKeys(db.Keys);
      ghost var end := if lastKey in db then Seek(keys, lastKey) else |keys|;
      FromIsRun(db, keys, fromKey, lastKey);
      NoFirstFrom(db, keys, fromKey, firstKey);
      out := CollectForward(keys, Seek(keys, fromKey), firstKey, lastKey, count, end);
    }

    /** The forward scan with a count. */
    method CollectForward(keys: seq<string>, start: nat, firstKey: string, lastKey: string, count: int, ghost end: nat)
      returns (out: seq<Record>)
      requires start <= end <= |keys| && forall k :: k in keys ==> k in db
      requires forall j :: start <= j < end ==> keys[j] != firstKey && keys[j] != lastKey
      requires end < |keys| ==> keys[end] == lastKey && lastKey != firstKey
      ensures out == Values(db, Take(keys[start..end], count))
    {
      hide Values;
      var i := start;
      var n := 0;
      out := [];
      while i < |keys| && n < count
        invariant start <= i <= end
        invariant n == i - start && (n <= count || n == 0)
        invariant out == Values(db, keys[start..i])
      {
        var itKey := keys[i];
        if itKey == firstKey {
        } else if itKey == lastKey {
          break;
        } else {
          n := n + 1;
          out := out + [db[itKey]];
        }
        NextValue(db, keys, start, i);
        i := i + 1;
      }
      assert Take(keys[start..end], count) == keys[start..i];
    }

    method GetCountTo(base: string, toDate: string, toTime: string, count: int) returns (out: seq<Record>)
      ensures out == CountTo(db, base, toDate, toTime, count)
    {
      var toKey := RecordKey(base, toDate, toTime);
      var firstKey := FirstKey(base);
      var lastKey := LastKey(base);
      hide RecordKey, FirstKey, LastKey, Less, SortedKeys, Seek, Values, KeysBetween, KeysFrom, KeysUpTo,
           Ascending, BackRun, Backwards;
      SentinelsBracket(base, toDate, toTime);
      LeqTransitive(firstKey, toKey, lastKey);
      LessIrreflexive(lastKey);
      var keys := SortedKeys(db.Keys);
      var i: int := Seek(keys, toKey);
      out := [];
      if i == |keys| {
        NothingUpTo(db, keys, toKey, firstKey, lastKey);
        return;
      }
      ghost var start, end := BackwardScan(db, keys, toKey, firstKey, lastKey);
      var collected := CollectBack(keys, i, firstKey, lastKey, count, start, end);
      out := WriteBackwards(collected);
    }

    method GetContract(symbol: string, exchange: string) returns (out: seq<Record>)
      ensures out == Store.GetContract(db, symbol, exchange)
    {
      out := [];
      if symbol == [] || exchange == [] {
        return;
      }
      if symbol == "*" && exchange == "*" {
        out := GetAllContracts(CONTRACT_FIRST);
      } else {
        var key := ContractKey(symbol, exchange);
        if key in db {
          var item := db[key];
          if SymbolOf(item) == [] {
            return;
          }
          out := [item];
        }
      }
    }

    /** The star scan: from behind the first sentinel to the first value without a symbol. */
    method GetAllContracts(firstKey: string) returns (out: seq<Record>)
      ensures out == Named(Values(db, AfterKey(db, firstKey)))
    {
      hide Less, SortedKeys, Seek, Values, AfterKey, Named;
      var keys := SortedKeys(db.Keys);
      var i := Seek(keys, firstKey);
      if i < |keys| {
        i := i + 1;
      }
      ghost var start := i;
      AfterKeyIsRun(db, keys, firstKey, start);
      out := [];
      while i < |keys|
        invariant start <= i <= |keys|
        invariant Named(Values(db, keys[start..])) == out + Named(Values(db, keys[i..]))
      {
        var contract := db[keys[i]];
        NamedStep(db, keys, i);
        if SymbolOf(contract) == [] {
          break;
        }
        out := out + [contract];
        i := i + 1;
      }
      ValuesEnd(db, keys, i);
    }

    method DeleteTick(req: RangeReq)
      modifies this
      ensures db == Store.DeleteTick(old(db), req)
    {
      if !CompleteRange(req) {
        return;
      }
      DeleteRange(TickBase(req.symbol, req.exchange), req);
    }

    method DeleteBar(req: RangeReq, period: Period)
      modifies this
      ensures db == Store.DeleteBar(old(db), req, period)
    {
      if !CompleteRange(req) || period == UnknownPeriod {
        return;
      }
      DeleteRange(DeletedBarBase(req.symbol, req.exchange, period), req);
    }

    /** Walk the range, collect a batch of deletions, apply it. */
    method DeleteRange(base: string, req: RangeReq)
      modifies this
      ensures db == DeleteBetween(old(db), RecordKey(base, req.fromDate, req.fromTime), RecordKey(base, req.toDate, req.toTime))
    {
      var fromKey := RecordKey(base, req.fromDate, req.fromTime);
      var endKey := RecordKey(base, req.toDate, req.toTime);
      var firstKey := FirstKey(base);
      var lastKey := LastKey(base);
      hide RecordKey, FirstKey, LastKey, Less, SortedKeys, Seek, Values, Ascending;
      SentinelsBracket(base, req.fromDate, req.fromTime);
      SentinelsBracket(base, req.toDate, req.toTime);
      LessAsymmetric(firstKey, fromKey);
      var keys := SortedKeys(db.Keys);
      var start := Seek(keys, fromKey);
      var i := start;
      var batch: seq<string> := [];
      while i < |keys|
        invariant start <= i <= |keys|
        invariant forall j :: start <= j < i ==> Leq(keys[j], endKey)
        invariant batch == keys[start..i]
      {
        var itKey := keys[i];
        if itKey == firstKey {
        } else if itKey == lastKey {
          break;
        } else if Leq(itKey, endKey) {
          batch := batch + [itKey];
        } else {
          break;
        }
        i := i + 1;
      }
      StoppedPast(keys, i, endKey, lastKey);
      BetweenIsRun(db, keys, fromKey, endKey, i);
      Write(batch);
    }

    /** Apply a batch of deletions. */
    method Write(batch: seq<string>)
      modifies this
      ensures db == old(db) - set k | k in batch
    {
      for i := 0 to |batch|
        invariant db == old(db) - set k | k in batch[..i]
      {
        db := db - {batch[i]};
      }
      assert batch[..|batch|] == batch;
    }

    /** The star deletion: every key between the two sentinels. */
    method DeleteAllContracts(firstKey: string, lastKey: string)
      modifies this
      ensures db == old(db) - set k | k in UpToKey(AfterKey(old(db), firstKey), lastKey)
    {
      hide Less, SortedKeys, Seek, AfterKey, UpToKey;
      var keys := SortedKeys(db.Keys);
      var i := Seek(keys, firstKey);
      if i < |keys| {
        i := i + 1;
      }
      ghost var start := i;
      AfterKeyIsRun(db, keys, firstKey, start);
      var batch: seq<string> := [];
      while i < |keys|
        invariant start <= i <= |keys|
        invariant db == old(db)
        invariant UpToKey(keys[start..], lastKey) == batch + UpToKey(keys[i..], lastKey)
      {
        var itKey := keys[i];
        UpToKeyStep(keys, i, lastKey);
        if itKey == firstKey {
        } else if itKey == lastKey {
          break;
        } else {
          batch := batch + [itKey];
        }
        i := i + 1;
      }
      UpToKeyEnd(keys, i, lastKey);
      assert batch == UpToKey(keys[start..], lastKey);
      Write(batch);
    }

    method DeleteContract(symbol: string, exchange: string)
      modifies this
      ensures db == Store.DeleteContract(old(db), symbol, exchange)
    {
      if symbol == [] || exchange == [] {
        return;
      }
      if symbol == "*" && exchange == "*" {
        DeleteAllContracts(CONTRACT_FIRST, CONTRACT_LAST);
      } else {
        Write([ContractKey(symbol, exchange)]);
      }
    }

    /** The backward half of the scan, newest record first. */
    method CollectBack(keys: seq<string>, from: nat, firstKey: string, lastKey: string, count: int,
                       ghost start: nat, ghost end: nat)
      returns (collected: seq<Record>)
      requires from < |keys| && (from == end || from == end - 1) && start <= end <= |keys| && firstKey != lastKey
      requires forall k :: k in keys ==> k in db
      requires forall j :: start <= j < end ==> keys[j] != firstKey && keys[j] != lastKey
      requires start > 0 ==> keys[start - 1] == firstKey
      requires from == end ==> keys[end] == lastKey
      ensures Backwards(collected) == LastOf(db, keys, start, end, count)
    {
      hide Backwards, LastOf, Values;
      var i: int := from;
      var n := 0;
      collected := [];
      while 0 <= i && n < count
        invariant start - 1 <= i <= end && i < |keys|
        invariant n == |collected| && (n <= count || n == 0)
        invariant if i == end then n == 0 && keys[i] == lastKey else n == end - 1 - i
        invariant forall j :: 0 <= j < n ==> collected[j] == db[keys[end - 1 - j]]
      {
        var itKey := keys[i];
        if itKey == lastKey {
        } else if itKey == firstKey {
          break;
        } else {
          n := n + 1;
          collected := collected + [db[itKey]];
        }
        i := i - 1;
      }
      CollectedIsLast(db, keys, start, end, count, collected);
    }

    /** The collected records leave in reverse. */
    method WriteBackwards(collected: seq<Record>) returns (out: seq<Record>)
      ensures out == Backwards(collected)
    {
      out := [];
      var i := |collected| - 1;
      while 0 <= i
        invariant -1 <= i < |collected| && |out| == |collected| - 1 - i
        invariant forall j :: 0 <= j < |out| ==> out[j] == collected[|collected| - 1 - j]
      {
        out := out + [collected[i]];
        i := i - 1;
      }
    }
  }

  /** Where a backward scan starts and ends. */
  lemma BackwardScan(db: Db, keys: seq<string>, to: string, first: string, last: string) returns (start: nat, end: nat)
    requires keys == SortedKeys(db.Keys) && Less(first, to) && Less(to, last)
    requires Seek(keys, to) < |keys|
    ensures start <= end <= |keys| && KeysUpTo(db, to, first, last) == keys[start..end]
    ensures forall j :: start <= j < end ==> keys[j] != first && keys[j] != last
    ensures start > 0 ==> keys[start - 1] == first
    ensures Seek(keys, to) == end - 1 || (Seek(keys, to) == end && keys[end] == last)
  {
    hide Less, SortedKeys, Seek, Ascending, KeysUpTo;
    UpToIsRun(db, keys, to, first, last);
    BackRunEdges(db, keys, to, first, last);
    start, end := BackRun(db, keys, to, first, last).0, BackRun(db, keys, to, first, last).1;
  }

  lemma NothingUpTo(db: Db, keys: seq<string>, to: string, first: string, last: string)
    requires keys == SortedKeys(db.Keys) && Seek(keys, to) == |keys|
    ensures KeysUpTo(db, to, first, last) == []
  {
    hide Less, SortedKeys, Seek;
    var ks := KeysUpTo(db, to, first, last);
    if ks != [] {
      var k := ks[0];
      assert k in ks;
      var c :| c in db && Leq(to, c);
      var j :| 0 <= j < |keys| && keys[j] == c;
      NotBoth(keys[j], to);
    }
  }
}
