/** The counted scans of any series of a well-formed store, whatever sorts into its bracket and
    whether its sentinels are in place: exactly when their answers are right. */
module StoreScans {
  import opened Lex
  import opened StoreKeys
  import opened Store
  import opened StoreMeaning

  // ---------------------------------------------------------------- a part of the keys met

  predicate IsOwn(r: Record, base: string) {
    IsSeriesRecord(r) && BaseOf(r) == base
  }

  /** The series' own keys from lo on. */
  ghost function OwnKeys(db: Db, base: string, lo: string): (ks: seq<string>)
    ensures Ascending(ks)
    ensures forall k :: k in ks <==> k in db && IsOwn(db[k], base) && Leq(lo, k)
  {
    SortedKeys(set k | k in db && IsOwn(db[k], base) && Leq(lo, k))
  }

  /** The least keys of a list and of a part that holds it agree, and so with what is behind. */
  lemma FirstOfPart(x: string, met: seq<string>, y: string, part: seq<string>)
    requires Ascending([x] + met) && Ascending([y] + part) && x in [y] + part
    requires forall k :: k in [y] + part ==> k in [x] + met
    ensures x == y && Ascending(met) && Ascending(part)
    ensures forall k :: k in part ==> k in met
    ensures forall k :: k in met && k in [y] + part ==> k in part
  {
    hide Less;
    var a, b := [x] + met, [y] + part;
    assert b[0] in b;
    var i :| 0 <= i < |a| && a[i] == y;
    var j :| 0 <= j < |b| && b[j] == x;
    assert i > 0 ==> Less(a[0], a[i]);
    assert j > 0 ==> Less(b[0], b[j]);
    LessNotBoth(x, y);
    BehindFirst(x, met);
    BehindFirst(y, part);
    forall k | k in part ensures k in met {
      assert k in b;
    }
  }

  lemma BehindFirst(x: string, rest: seq<string>)
    requires Ascending([x] + rest)
    ensures Ascending(rest) && x !in rest
  {
    hide Less;
    var a := [x] + rest;
    forall i, j | 0 <= i < j < |rest| ensures Less(rest[i], rest[j]) {
      assert Less(a[i + 1], a[j + 1]);
    }
    forall j | 0 <= j < |rest| ensures rest[j] != x {
      assert Less(a[0], a[j + 1]);
      LessIrreflexive(x);
    }
  }

  /** If the first n keys met all belong to a part of them, they are the first n of that part. */
  lemma {:induction false} FrontOfPart(met: seq<string>, part: seq<string>, n: nat)
    requires Ascending(met) && Ascending(part) && n <= |met|
    requires forall k :: k in part ==> k in met
    requires forall i :: 0 <= i < n ==> met[i] in part
    ensures n <= |part| && part[..n] == met[..n]
  {
    hide Ascending;
    if n > 0 {
      assert met[0] in part;
      assert met == [met[0]] + met[1..] && part == [part[0]] + part[1..];
      FirstOfPart(met[0], met[1..], part[0], part[1..]);
      forall m | 0 <= m < n - 1 ensures met[1..][m] in part[1..] {
        assert met[1..][m] == met[m + 1] && met[1..][m] in met[1..];
      }
      FrontOfPart(met[1..], part[1..], n - 1);
      assert met[..n] == [met[0]] + met[1..][..n - 1];
      assert part[..n] == [part[0]] + part[1..][..n - 1];
    }
  }

  lemma LastOfPart(met: seq<string>, x: string, part: seq<string>, y: string)
    requires Ascending(met + [x]) && Ascending(part + [y]) && x in part + [y]
    requires forall k :: k in part + [y] ==> k in met + [x]
    ensures x == y && Ascending(met) && Ascending(part)
    ensures forall k :: k in part ==> k in met
    ensures forall k :: k in met && k in part + [y] ==> k in part
  {
    hide Less;
    var a, b := met + [x], part + [y];
    assert b[|part|] in b;
    var i :| 0 <= i < |a| && a[i] == y;
    var j :| 0 <= j < |b| && b[j] == x;
    assert i < |met| ==> Less(a[i], a[|met|]);
    assert j < |part| ==> Less(b[j], b[|part|]);
    LessNotBoth(x, y);
    BeforeLast(met, x);
    BeforeLast(part, y);
    forall k | k in part ensures k in met {
      assert k in b;
    }
  }

  lemma BeforeLast(rest: seq<string>, x: string)
    requires Ascending(rest + [x])
    ensures Ascending(rest) && x !in rest
  {
    hide Less;
    var a := rest + [x];
    forall i, j | 0 <= i < j < |rest| ensures Less(rest[i], rest[j]) {
      assert Less(a[i], a[j]);
    }
    forall j | 0 <= j < |rest| ensures rest[j] != x {
      assert Less(a[j], a[|rest|]);
      LessIrreflexive(x);
    }
  }

  /** The same for the last n. */
  lemma {:induction false} BackOfPart(met: seq<string>, part: seq<string>, n: nat)
    requires Ascending(met) && Ascending(part) && n <= |met|
    requires forall k :: k in part ==> k in met
    requires forall i :: |met| - n <= i < |met| ==> met[i] in part
    ensures n <= |part| && part[|part| - n..] == met[|met| - n..]
  {
    hide Ascending;
    if n > 0 {
      var a, b := |met| - 1, |part| - 1;
      assert met[a] in part;
      assert met == met[..a] + [met[a]] && part == part[..b] + [part[b]];
      LastOfPart(met[..a], met[a], part[..b], part[b]);
      forall m | a - (n - 1) <= m < a ensures met[..a][m] in part[..b] {
        assert met[..a][m] == met[m] && met[..a][m] in met[..a];
      }
      BackOfPart(met[..a], part[..b], n - 1);
      assert met[|met| - n..] == met[..a][a - (n - 1)..] + [met[a]];
      assert part[|part| - n..] == part[..b][b - (n - 1)..] + [part[b]];
    }
  }

  lemma LessNotBoth(a: string, b: string)
    ensures !(Less(a, b) && Less(b, a))
    ensures a == b ==> !Less(a, b)
  {
    LessIrreflexive(a);
    if Less(a, b) { LessAsymmetric(a, b); }
  }

  lemma WholePart(met: seq<string>, part: seq<string>)
    requires Ascending(met) && Ascending(part)
    requires forall k :: k in part ==> k in met
    requires forall i :: 0 <= i < |met| ==> met[i] in part
    ensures part == met
  {
    hide Less;
    AscendingUnique(part, met);
  }

  lemma TakePart(met: seq<string>, part: seq<string>, count: int)
    requires Ascending(met) && Ascending(part)
    requires forall k :: k in part ==> k in met
    requires forall k :: k in Take(met, count) ==> k in part
    ensures Take(met, count) == Take(part, count)
  {
    hide Less, Ascending;
    if 0 < count < |met| {
      assert forall i :: 0 <= i < count ==> Take(met, count)[i] == met[i];
      FrontOfPart(met, part, count);
    } else if count > 0 {
      WholePart(met, part);
    }
  }

  lemma TakeLastPart(met: seq<string>, part: seq<string>, count: int)
    requires Ascending(met) && Ascending(part)
    requires forall k :: k in part ==> k in met
    requires forall k :: k in TakeLast(met, count) ==> k in part
    ensures TakeLast(met, count) == TakeLast(part, count)
  {
    hide Less, Ascending;
    if 0 < count < |met| {
      assert forall i :: |met| - count <= i < |met| ==> TakeLast(met, count)[i - (|met| - count)] == met[i];
      BackOfPart(met, part, count);
    } else if count > 0 {
      WholePart(met, part);
    }
  }

  /** A list of keys with a foreign one among them has other values than one of own keys. */
  lemma ForeignShows(db: Db, base: string, taken: seq<string>, rs: seq<Record>)
    requires forall k :: k in taken ==> k in db
    requires forall r :: r in rs ==> IsOwn(r, base)
    ensures Values(db, taken) == rs ==> forall k :: k in taken ==> IsOwn(db[k], base)
  {
    hide Values, IsOwn;
    if Values(db, taken) == rs {
      forall k | k in taken ensures IsOwn(db[k], base) {
        var j :| 0 <= j < |taken| && taken[j] == k;
        assert rs[j] == db[k] && rs[j] in rs;
      }
    }
  }

  lemma TakenOwn(base: string, rs: seq<Record>, count: int)
    requires forall r :: r in rs ==> IsOwn(r, base)
    ensures forall r :: r in Take(rs, count) ==> IsOwn(r, base)
    ensures forall r :: r in TakeLast(rs, count) ==> IsOwn(r, base)
  {
    hide IsOwn;
  }

  lemma OwnValues(db: Db, base: string, keys: seq<string>)
    requires forall k :: k in keys ==> k in db && IsOwn(db[k], base)
    ensures forall r :: r in Values(db, keys) ==> IsOwn(r, base)
  {
    hide Values, IsOwn;
    forall r | r in Values(db, keys) ensures IsOwn(r, base) {
      var j :| 0 <= j < |keys| && Values(db, keys)[j] == r;
      assert keys[j] in keys;
    }
  }

  /** Any series' from + count, isolated or not, sentinel or not: right exactly if no other series'
      key is among those the scan takes. */
  lemma FromCountExactIff(db: Db, base: string, date: string, time: string, count: int) returns (all: seq<Record>)
    requires WellFormed(db) && GoodBase(base) && GoodDate(date)
    ensures Lists(all, db, base, At(date, time), Unbounded)
    ensures FromCount(db, base, date, time, count) == Take(all, count) <==>
            forall k :: k in Take(KeysFrom(db, RecordKey(base, date, time), LastKey(base)), count) ==> IsOwn(db[k], base)
  {
    hide Less, RecordKey, FirstKey, LastKey, KeysFrom, OwnKeys, Values, Shape, BaseOf, Before, GoodBase, GoodDate,
         Take;
    var lo, last := RecordKey(base, date, time), LastKey(base);
    var own, met := OwnKeys(db, base, lo), KeysFrom(db, lo, last);
    forall k | k in db ensures k in own <==> InWindow(db[k], base, At(date, time), Unbounded) {
      if IsOwn(db[k], base) {
        OwnKey(db, k);
        KeyAgainstBound(db[k], base, date, time);
      }
    }
    KeysList(db, base, At(date, time), Unbounded, own);
    all := Values(db, own);
    forall k | k in own ensures k in met {
      OwnKey(db, k);
      KeyShape(db[k]);
    }
    TakeMembers(met, count);
    OwnValues(db, base, own);
    TakenOwn(base, all, count);
    ForeignShows(db, base, Take(met, count), Take(all, count));
    if forall k :: k in Take(met, count) ==> IsOwn(db[k], base) {
      TakePart(met, own, count);
      ValuesTake(db, own, count);
    }
  }

  lemma TakeMembers(keys: seq<string>, count: int)
    ensures forall k :: k in Take(keys, count) ==> k in keys
    ensures forall k :: k in TakeLast(keys, count) ==> k in keys
  {
  }

  /** Where the cursor is placed: the first key at or after `to`. */
  lemma CeilingOf(db: Db, to: string) returns (c: string)
    requires exists k :: k in db && Leq(to, k)
    ensures c in db && Leq(to, c) && forall x :: x in db && Leq(to, x) ==> Leq(c, x)
  {
    hide Less;
    var s := set k | k in db && Leq(to, k);
    var k :| k in db && Leq(to, k);
    assert k in s;
    c := Least(s);
    assert IsLeast(s, c);
  }

  /** Placed on an own key or the last sentinel, the own keys met are those wanted. */
  lemma OwnKeysMet(db: Db, base: string, to: string, own: seq<string>, i: nat, c: string, k: string)
    requires WellFormed(db) && own == OwnKeys(db, base, FirstKey(base)) && i == Seek(own, to)
    requires Less(FirstKey(base), to) && c in db && Leq(to, c) && forall x :: x in db && Leq(to, x) ==> Leq(c, x)
    requires IsOwn(db[c], base) || c == LastKey(base)
    ensures k in Upto(own, i) <==> k in KeysUpTo(db, to, FirstKey(base), LastKey(base)) && IsOwn(db[k], base)
  {
    hide Less, RecordKey, FirstKey, LastKey, KeysUpTo, OwnKeys, Seek, Upto, ReachedBackFrom, Shape, BaseOf, IsOwn, WellFormed;
    if k in db && IsOwn(db[k], base) {
      OwnInBracket(db, base, k);
      assert k in own;
      ReachedUpToCeiling(db, to, c, k);
      LessIrreflexive(k);
      OwnUpto(db, base, to, own, i, c, k);
    } else {
      UptoIn(own, i, k);
    }
  }

  lemma UptoIn(ks: seq<string>, i: nat, k: string)
    requires i <= |ks|
    ensures k in Upto(ks, i) ==> k in ks
  {
  }

  lemma OwnInBracket(db: Db, base: string, k: string)
    requires WellFormed(db) && k in db && IsOwn(db[k], base)
    ensures Less(FirstKey(base), k) && Less(k, LastKey(base))
  {
    hide Less, FirstKey, LastKey, Shape, BaseOf, WellFormed;
    OwnKey(db, k);
    KeyShape(db[k]);
  }

  lemma OwnUpto(db: Db, base: string, to: string, own: seq<string>, i: nat, c: string, k: string)
    requires WellFormed(db) && own == OwnKeys(db, base, FirstKey(base)) && i == Seek(own, to) && k in own
    requires Less(FirstKey(base), to) && c in db && Leq(to, c) && forall x :: x in db && Leq(to, x) ==> Leq(c, x)
    requires IsOwn(db[c], base) || c == LastKey(base)
    ensures k in Upto(own, i) <==> Leq(k, c)
  {
    hide Less, RecordKey, FirstKey, LastKey, OwnKeys, Seek, Upto, Shape, BaseOf, IsOwn, WellFormed;
    if i < |own| {
      assert own[i] in own && Leq(c, own[i]);
      OwnInBracket(db, base, own[i]);
      LeqTransitive(c, own[i], LastKey(base));
      LessIrreflexive(LastKey(base));
      OwnInBracket(db, base, c);
      LessLeq(FirstKey(base), c);
      assert c in own;
      var j :| 0 <= j < |own| && own[j] == c;
      LeqNotLess(to, c);
      assert j >= i;
      assert j > i ==> Less(own[i], c);
      LessNotBoth(own[i], c);
    } else if IsOwn(db[c], base) {
      OwnInBracket(db, base, c);
      LessLeq(FirstKey(base), c);
      assert c in own;
      var j :| 0 <= j < |own| && own[j] == c;
      LeqNotLess(to, c);
    } else {
      OwnInBracket(db, base, k);
    }
    UptoPosition(own, i, k);
  }

  lemma LessLeq(a: string, b: string)
    ensures Less(a, b) ==> Leq(a, b)
  {
  }

  lemma LeqNotLess(a: string, b: string)
    ensures Leq(a, b) ==> !Less(b, a)
  {
    hide Less;
    LessNotBoth(a, b);
    LessIrreflexive(a);
  }

  /** Placed on a foreign key, the scan takes it first of all. */
  lemma ForeignCeilingTaken(db: Db, to: string, first: string, last: string, c: string, count: int)
    requires Less(first, to) && c in db && Leq(to, c) && (forall x :: x in db && Leq(to, x) ==> Leq(c, x)) && c != last
    requires count > 0
    ensures c in TakeLast(KeysUpTo(db, to, first, last), count)
  {
    hide Less, KeysUpTo, ReachedBackFrom, TakeLast;
    var met := KeysUpTo(db, to, first, last);
    ReachedUpToCeiling(db, to, c, c);
    LeqTransitive(first, to, c);
    assert c in met;
    forall k | k in met ensures Leq(k, c) {
      ReachedUpToCeiling(db, to, c, k);
    }
    GreatestTaken(met, c, count);
  }

  lemma GreatestTaken(keys: seq<string>, c: string, count: int)
    requires Ascending(keys) && c in keys && (forall k :: k in keys ==> Leq(k, c)) && count > 0
    ensures c in TakeLast(keys, count)
  {
    hide Less;
    var n := |keys| - 1;
    var j :| 0 <= j < |keys| && keys[j] == c;
    assert keys[n] in keys;
    assert j < n ==> Less(c, keys[n]);
    LeqNotLess(keys[n], c);
    assert TakeLast(keys, count)[|TakeLast(keys, count)| - 1] == keys[n];
  }

  /** Without any key at or after `to` the cursor is placed nowhere and nothing is met. */
  lemma NothingMet(db: Db, to: string, first: string, last: string)
    requires !exists k :: k in db && Leq(to, k)
    ensures KeysUpTo(db, to, first, last) == []
  {
    hide Less;
    var met := KeysUpTo(db, to, first, last);
    assert forall k :: k !in met;
    NonEmpty(met);
  }

  lemma NonEmpty(s: seq<string>)
    ensures s == [] || exists k :: k in s
  {
    if s != [] {
      assert s[0] in s;
    }
  }

  lemma SeekFound(keys: seq<string>, key: string)
    requires Ascending(keys)
    ensures Seek(keys, key) == |keys| || exists k :: k in keys && Leq(key, k)
  {
    hide Less, Seek;
    var i := Seek(keys, key);
    if i < |keys| {
      assert keys[i] in keys && Leq(key, keys[i]);
    }
  }

  lemma OwnKeysList(db: Db, base: string, date: string, time: string) returns (own: seq<string>, i: nat)
    requires WellFormed(db) && GoodBase(base) && GoodDate(date)
    ensures own == OwnKeys(db, base, FirstKey(base)) && i == Seek(own, RecordKey(base, date, time))
    ensures forall k :: k in own ==> k in db && IsOwn(db[k], base)
    ensures Lists(Values(db, own), db, base, Unbounded, Unbounded)
    ensures forall m :: 0 <= m < |own| ==> (EarlierThan(Values(db, own)[m], date, time) <==> m < i)
  {
    hide Less, RecordKey, FirstKey, LastKey, OwnKeys, Seek, Values, Shape, BaseOf, Before, GoodBase, GoodDate;
    var to := RecordKey(base, date, time);
    own := OwnKeys(db, base, FirstKey(base));
    i := Seek(own, to);
    forall k | k in db ensures k in own <==> InWindow(db[k], base, Unbounded, Unbounded) {
      if IsOwn(db[k], base) {
        OwnInBracket(db, base, k);
      }
    }
    KeysList(db, base, Unbounded, Unbounded, own);
    forall m | 0 <= m < |own| ensures EarlierThan(Values(db, own)[m], date, time) <==> m < i {
      assert own[m] in own;
      OwnKey(db, own[m]);
      KeyAgainstBound(db[own[m]], base, date, time);
      LessTotal(own[m], to);
      LeqNotLess(to, own[m]);
    }
  }

  /** Any series' count + to, isolated or not, sentinels or not: right exactly if nothing is asked
      for, or no other series' key is among those the scan takes and the cursor finds a place,
      unless the series is empty. */
  lemma CountToExactIff(db: Db, base: string, date: string, time: string, count: int) returns (all: seq<Record>, i: nat)
    requires WellFormed(db) && GoodBase(base) && GoodDate(date)
    ensures Lists(all, db, base, Unbounded, Unbounded) && i <= |all|
    ensures forall m :: 0 <= m < |all| ==> (EarlierThan(all[m], date, time) <==> m < i)
    ensures var to := RecordKey(base, date, time);
            CountTo(db, base, date, time, count) == TakeLast(Upto(all, i), count) <==>
            || count <= 0
            || (&& (all == [] || exists k :: k in db && Leq(to, k))
                && forall k :: k in TakeLast(KeysUpTo(db, to, FirstKey(base), LastKey(base)), count) ==> IsOwn(db[k], base))
  {
    hide Less, RecordKey, FirstKey, LastKey, KeysUpTo, OwnKeys, Seek, Values, Shape, BaseOf, Before, GoodBase,
         GoodDate, TakeLast, Upto, IsOwn, EarlierThan, Lists, WellFormed;
    var to, first, last := RecordKey(base, date, time), FirstKey(base), LastKey(base);
    SentinelsBracket(base, date, time);
    var own;
    own, i := OwnKeysList(db, base, date, time);
    all := Values(db, own);
    var met, want := KeysUpTo(db, to, first, last), Upto(own, i);
    ValuesUpto(db, own, i);
    OwnUptoIn(own, i);
    ValuesTake(db, want, count);
    TakeMembers(want, count);
    assert TakeLast(Upto(all, i), count) == Values(db, TakeLast(want, count));
    if exists k :: k in db && Leq(to, k) {
      var c := CeilingOf(db, to);
      WantedIff(db, base, to, own, i, c, count);
    } else {
      NothingMet(db, to, first, last);
      NothingPlaced(db, to, own, i, count);
    }
  }

  lemma OwnUptoIn(own: seq<string>, i: nat)
    requires i <= |own|
    ensures forall k :: k in Upto(own, i) ==> k in own
  {
  }

  lemma NothingPlaced(db: Db, to: string, own: seq<string>, i: nat, count: int)
    requires Ascending(own) && i == Seek(own, to) && forall k :: k in own ==> k in db
    requires !exists k :: k in db && Leq(to, k)
    ensures Upto(own, i) == own
    ensures TakeLast<string>([], count) == []
    ensures count > 0 ==> (Values(db, TakeLast(own, count)) == [] <==> own == [])
    ensures count <= 0 ==> TakeLast(own, count) == []
  {
    hide Less, Seek, Values;
    SeekFound(own, to);
  }

  lemma WantedIff(db: Db, base: string, to: string, own: seq<string>, i: nat, c: string, count: int)
    requires WellFormed(db) && own == OwnKeys(db, base, FirstKey(base)) && i == Seek(own, to)
    requires Less(FirstKey(base), to) && c in db && Leq(to, c) && forall x :: x in db && Leq(to, x) ==> Leq(c, x)
    requires forall k :: k in Upto(own, i) ==> k in db && IsOwn(db[k], base)
    ensures var met := KeysUpTo(db, to, FirstKey(base), LastKey(base));
            && (forall k :: k in TakeLast(met, count) ==> k in db)
            && (forall k :: k in TakeLast(Upto(own, i), count) ==> k in db)
            && (Values(db, TakeLast(met, count)) == Values(db, TakeLast(Upto(own, i), count)) <==>
                count <= 0 || forall k :: k in TakeLast(met, count) ==> IsOwn(db[k], base))
  {
    hide Less, RecordKey, FirstKey, LastKey, KeysUpTo, OwnKeys, Seek, Values, Shape, BaseOf, TakeLast, Upto, IsOwn,
         WellFormed, Ascending;
    var first, last := FirstKey(base), LastKey(base);
    var met, want := KeysUpTo(db, to, first, last), Upto(own, i);
    TakeMembers(met, count);
    TakeMembers(want, count);
    OwnValues(db, base, TakeLast(want, count));
    ForeignShows(db, base, TakeLast(met, count), Values(db, TakeLast(want, count)));
    if count <= 0 {
      NoneTaken(met, count);
      NoneTaken(want, count);
    } else if IsOwn(db[c], base) || c == last {
      forall k ensures k in want <==> k in met && IsOwn(db[k], base) {
        OwnKeysMet(db, base, to, own, i, c, k);
      }
      UptoAscending(own, i);
      if forall k :: k in TakeLast(met, count) ==> IsOwn(db[k], base) {
        TakeLastPart(met, want, count);
      }
    } else {
      ForeignCeilingTaken(db, to, first, last, c, count);
    }
  }

  lemma NoneTaken(keys: seq<string>, count: int)
    requires count <= 0
    ensures TakeLast(keys, count) == []
  {
  }

  lemma UptoAscending(keys: seq<string>, i: nat)
    requires Ascending(keys) && i <= |keys|
    ensures Ascending(Upto(keys, i))
  {
    hide Less;
  }
}
