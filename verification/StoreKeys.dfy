/** The text keys of the tick, bar and contract store and the order they sort in. */
module StoreKeys {
  import opened Lex

  /** BfBarPeriod, PERIOD_UNKNOWN first. */
  datatype Period = UnknownPeriod | S01 | S03 | S05 | S10 | S15 | S30 | M01 | M03 | M05 | M10 | M15 | M30
                  | H01 | H02 | H03 | H04 | D01 | W01 | X01

  /** H03 prints as "h04", so three-hour and four-hour bars share one series. */
  function FormatPeriod(p: Period): string {
    match p
    case S01 => "s01" case S03 => "s03" case S05 => "s05" case S10 => "s10" case S15 => "s15" case S30 => "s30"
    case M01 => "m01" case M03 => "m03" case M05 => "m05" case M10 => "m10" case M15 => "m15" case M30 => "m30"
    case H01 => "h01" case H02 => "h02" case H03 => "h04" case H04 => "h04"
    case D01 => "d01" case W01 => "w01" case X01 => "x01"
    case UnknownPeriod => "unknown"
  }

  /** A series of records shares a base text; its sentinels and records extend it. */
  function TickBase(symbol: string, exchange: string): string {
    "tick-" + symbol + "-" + exchange
  }

  function BarBase(symbol: string, exchange: string, period: Period): string {
    "bar-" + symbol + "-" + exchange + "-" + FormatPeriod(period)
  }

  function FirstKey(base: string): string {
    base + "+"
  }

  function LastKey(base: string): string {
    base + "="
  }

  function RecordKey(base: string, date: string, time: string): string {
    base + "-" + date + "-" + time
  }

  function ContractKey(symbol: string, exchange: string): string {
    "contract-" + symbol + "-" + exchange
  }

  const CONTRACT_FIRST := "contract+"
  const CONTRACT_LAST := "contract="

  // ---------------------------------------------------------------- fields that keep keys readable

  predicate NoDash(s: string) {
    forall i :: 0 <= i < |s| ==> s[i] != '-'
  }

  predicate GoodSymbol(s: string) {
    s != [] && NoDash(s)
  }

  predicate GoodExchange(s: string) {
    s != [] && NoDash(s)
  }

  predicate GoodDate(s: string) {
    s != [] && forall i :: 0 <= i < |s| ==> s[i] > '-'
  }

  ghost predicate GoodBase(base: string) {
    exists y, e :: GoodSymbol(y) && GoodExchange(e) && IsBaseOf(base, y, e)
  }

  predicate IsBaseOf(base: string, symbol: string, exchange: string) {
    || base == TickBase(symbol, exchange)
    || (exists p: Period :: base == BarBase(symbol, exchange, p))
  }

  // ---------------------------------------------------------------- splitting at dashes

  /** What stands before the first dash is determined, and so is what follows it. */
  lemma {:induction false} SplitUnique(a: string, x: string, b: string, y: string)
    requires NoDash(a) && NoDash(b)
    requires a + "-" + x == b + "-" + y
    ensures a == b && x == y
  {
    var l, r := a + "-" + x, b + "-" + y;
    assert l[|a|] == '-' && r[|b|] == '-';
    assert forall i :: 0 <= i < |a| ==> l[i] == a[i];
    assert forall i :: 0 <= i < |b| ==> r[i] == b[i];
    assert |a| == |b|;
    assert a == l[..|a|] && b == r[..|b|];
    assert x == l[|a| + 1..] && y == r[|b| + 1..];
  }

  /** Within a series, key order is order by date and then by time. */
  predicate Before(d1: string, t1: string, d2: string, t2: string) {
    Less(d1, d2) || (d1 == d2 && Less(t1, t2))
  }

  lemma {:induction false} DatesOrderKeys(d1: string, t1: string, d2: string, t2: string)
    requires forall i :: 0 <= i < |d1| ==> d1[i] > '-'
    requires forall i :: 0 <= i < |d2| ==> d2[i] > '-'
    ensures Less(d1 + "-" + t1, d2 + "-" + t2) <==> Before(d1, t1, d2, t2)
  {
    var l, r := d1 + "-" + t1, d2 + "-" + t2;
    if d1 == [] || d2 == [] {
      if d1 == [] { assert l[0] == '-' && l[1..] == t1; } else { assert l[0] == d1[0]; }
      if d2 == [] { assert r[0] == '-' && r[1..] == t2; } else { assert r[0] == d2[0]; }
    } else {
      assert l[0] == d1[0] && r[0] == d2[0];
      assert l[1..] == d1[1..] + "-" + t1 && r[1..] == d2[1..] + "-" + t2;
      DatesOrderKeys(d1[1..], t1, d2[1..], t2);
      assert d1 == d2 <==> d1[0] == d2[0] && d1[1..] == d2[1..] by {
        assert d1 == [d1[0]] + d1[1..] && d2 == [d2[0]] + d2[1..];
      }
    }
  }

  lemma RecordKeyOrder(base: string, d1: string, t1: string, d2: string, t2: string)
    requires GoodDate(d1) && GoodDate(d2)
    ensures Less(RecordKey(base, d1, t1), RecordKey(base, d2, t2)) <==> Before(d1, t1, d2, t2)
  {
    var p := base + "-";
    assert RecordKey(base, d1, t1) == p + (d1 + "-" + t1);
    assert RecordKey(base, d2, t2) == p + (d2 + "-" + t2);
    LessPrefix(p, d1 + "-" + t1, d2 + "-" + t2);
    DatesOrderKeys(d1, t1, d2, t2);
  }

  /** The sentinels bracket every record of the series. */
  lemma SentinelsBracket(base: string, d: string, t: string)
    ensures Less(FirstKey(base), RecordKey(base, d, t)) && Less(RecordKey(base, d, t), LastKey(base))
  {
    assert RecordKey(base, d, t) == base + ("-" + d + "-" + t);
    LessPrefix(base, "+", "-" + d + "-" + t);
    LessPrefix(base, "-" + d + "-" + t, "=");
  }

  // ---------------------------------------------------------------- what sorts inside a series' bracket

  /** b extends a by a character that sorts from the first sentinel's to before the last one's. */
  predicate Intrudes(a: string, b: string) {
    a <= b && |a| < |b| && '+' <= b[|a|] < '='
  }

  lemma TickBaseExtended(y1: string, e1: string, y2: string, e2: string, rest: string)
    requires GoodSymbol(y1) && GoodSymbol(y2)
    requires TickBase(y1, e1) + rest == TickBase(y2, e2)
    ensures y1 == y2 && e1 + rest == e2
  {
    var a, b := TickBase(y1, e1), TickBase(y2, e2);
    assert b[5..] == (a + rest)[5..] == y1 + "-" + (e1 + rest);
    assert b[5..] == y2 + "-" + e2;
    SplitUnique(y1, e1 + rest, y2, e2);
  }

  lemma BarBaseExtended(y1: string, e1: string, p1: Period, y2: string, e2: string, p2: Period, rest: string)
    requires GoodSymbol(y1) && GoodExchange(e1) && GoodSymbol(y2) && GoodExchange(e2)
    requires BarBase(y1, e1, p1) + rest == BarBase(y2, e2, p2)
    ensures y1 == y2 && e1 == e2 && FormatPeriod(p1) == FormatPeriod(p2) && rest == []
  {
    hide FormatPeriod;
    var a, b := BarBase(y1, e1, p1), BarBase(y2, e2, p2);
    var f1, f2 := FormatPeriod(p1), FormatPeriod(p2);
    assert b[4..] == (a + rest)[4..] == y1 + "-" + (e1 + "-" + (f1 + rest));
    assert b[4..] == y2 + "-" + (e2 + "-" + f2);
    SplitUnique(y1, e1 + "-" + (f1 + rest), y2, e2 + "-" + f2);
    SplitUnique(e1, f1 + rest, e2, f2);
    PeriodTexts(p1, p2, rest);
    assert f1 + rest == f1;
  }

  /** No period text is another one extended. */
  lemma PeriodTexts(p1: Period, p2: Period, rest: string)
    requires FormatPeriod(p1) + rest == FormatPeriod(p2)
    ensures rest == []
  {
    var f1, f2 := FormatPeriod(p1), FormatPeriod(p2);
    assert |f1| == 3 || p1 == UnknownPeriod;
    assert |f2| == 3 || p2 == UnknownPeriod;
    assert f1[0] == f2[0];
    assert f1[0] == 'u' <==> p1 == UnknownPeriod;
    assert f2[0] == 'u' <==> p2 == UnknownPeriod;
  }

  /** A base that extends another one: both are tick bases of one symbol, the exchange extended. */
  lemma {:induction false} BaseExtended(a: string, b: string)
    returns (y: string, e: string, rest: string)
    requires GoodBase(a) && GoodBase(b) && a <= b && |a| < |b|
    ensures GoodSymbol(y) && GoodExchange(e) && a == TickBase(y, e) && a[0] == 't'
    ensures GoodExchange(e + rest) && b == TickBase(y, e + rest) && rest == b[|a|..] && NoDash(rest)
  {
    var y1, e1 :| GoodSymbol(y1) && GoodExchange(e1) && IsBaseOf(a, y1, e1);
    var y2, e2 :| GoodSymbol(y2) && GoodExchange(e2) && IsBaseOf(b, y2, e2);
    rest := b[|a|..];
    assert a + rest == b;
    BaseLetters(a, y1, e1);
    BaseLetters(b, y2, e2);
    assert a[0] == b[0];
    if a[0] == 'b' {
      var p1: Period :| a == BarBase(y1, e1, p1);
      var p2: Period :| b == BarBase(y2, e2, p2);
      BarBaseExtended(y1, e1, p1, y2, e2, p2, rest);
    } else {
      TickBaseExtended(y1, e1, y2, e2, rest);
      assert forall i :: 0 <= i < |rest| ==> rest[i] == e2[|e1| + i];
    }
    y, e := y1, e1;
  }

  lemma NotByADash(a: string, b: string)
    requires GoodBase(a) && GoodBase(b)
    ensures !(a <= b && |a| < |b| && b[|a|] == '-')
  {
    hide GoodBase;
    if a <= b && |a| < |b| {
      var _, _, rest := BaseExtended(a, b);
      assert rest[0] == b[|a|];
    }
  }

  lemma BaseLetters(base: string, y: string, e: string)
    requires IsBaseOf(base, y, e)
    ensures base != [] && (base[0] == 't' || base[0] == 'b')
    ensures base[0] == 't' <==> base == TickBase(y, e)
    ensures base[0] == 'b' <==> exists p: Period :: base == BarBase(y, e, p)
  {
    assert TickBase(y, e)[0] == 't';
    assert forall p: Period :: BarBase(y, e, p)[0] == 'b';
  }

  /** Inside the bracket of a series sort only its own keys and those of series that intrude;
      rest is what a sentinel or a record appends to its base. */
  lemma BracketOnlyOwn(a: string, b: string, rest: string)
    requires GoodBase(a) && GoodBase(b)
    requires rest == "+" || rest == "=" || (rest != [] && rest[0] == '-')
    requires Leq(FirstKey(a), b + rest) && Leq(b + rest, LastKey(a))
    ensures a == b || Intrudes(a, b)
  {
    hide GoodBase;
    var k := b + rest;
    BetweenHasPrefix(a, "+", k, "=");
    var tail := k[|a|..];
    assert k == a + tail;
    LessPrefix(a, "+", tail);
    LessPrefix(a, tail, "=");
    assert k == a + "+" ==> tail == "+";
    assert k == a + "=" ==> tail == "=";
    assert tail != [] && '+' <= tail[0] <= '=' && (tail[0] == '=' ==> tail == "=");
    assert forall i :: 0 <= i < |b| ==> b[i] == k[i];
    assert forall i :: 0 <= i < |a| ==> a[i] == k[i];
    assert |a| < |b| ==> a == b[..|a|] && b[|a|] == tail[0];
    assert |b| < |a| ==> b == a[..|b|] && a[|b|] == rest[0];
    NotByADash(b, a);
  }

  /** Behind a series' base and a dash come its own records only, whoever intrudes. */
  lemma DashOnlyOwn(a: string, b: string, rest: string)
    requires GoodBase(a) && GoodBase(b)
    requires rest == "+" || rest == "=" || (rest != [] && rest[0] == '-')
    requires a + "-" <= b + rest
    ensures a == b && rest[0] == '-'
  {
    hide GoodBase;
    var k := b + rest;
    assert k[|a|] == (a + "-")[|a|] == '-';
    assert forall i :: 0 <= i < |a| ==> a[i] == (a + "-")[i] == k[i];
    assert forall i :: 0 <= i < |b| ==> b[i] == k[i];
    assert |a| < |b| ==> a == b[..|a|] && b[|a|] == '-';
    assert |b| < |a| ==> b == a[..|b|] && a[|b|] == rest[0];
    assert |a| == |b| ==> a == b && rest[0] == '-';
    NotByADash(a, b);
    NotByADash(b, a);
  }

  /** And those of series that intrude all do. */
  lemma IntruderInside(a: string, b: string, rest: string)
    requires Intrudes(a, b) && rest != []
    ensures Less(FirstKey(a), b + rest) && Less(b + rest, LastKey(a))
  {
    var tail := b[|a|..] + rest;
    assert b + rest == a + tail;
    LessPrefix(a, "+", tail);
    LessPrefix(a, tail, "=");
    assert tail[0] == b[|a|] && |tail| > 1;
  }

  /** Nothing intrudes into a series of bars. */
  lemma BarsUndisturbed(y: string, e: string, p: Period, b: string)
    requires GoodSymbol(y) && GoodExchange(e) && GoodBase(b)
    ensures !Intrudes(BarBase(y, e, p), b)
  {
    var a := BarBase(y, e, p);
    assert IsBaseOf(a, y, e);
    assert a[0] == 'b';
    if Intrudes(a, b) {
      var _, _, _ := BaseExtended(a, b);
    }
  }

  /** Into a series of ticks intrude exactly those of the same symbol on an exchange whose name
      extends its own by a character from '+' to before '='. */
  lemma TickIntruders(y1: string, e1: string, y2: string, e2: string)
    requires GoodSymbol(y1) && GoodSymbol(y2)
    ensures Intrudes(TickBase(y1, e1), TickBase(y2, e2)) <==> y1 == y2 && Intrudes(e1, e2)
  {
    var a, b := TickBase(y1, e1), TickBase(y2, e2);
    if Intrudes(a, b) {
      assert a + b[|a|..] == b;
      TickBaseExtended(y1, e1, y2, e2, b[|a|..]);
      assert e2[|e1|] == b[|a|];
    }
    if y1 == y2 && Intrudes(e1, e2) {
      assert b == a + e2[|e1|..];
    }
  }

  /** Whose tick records sort between the sentinels of a series of ticks. */
  lemma TickInsideIff(y1: string, e1: string, y2: string, e2: string, d: string, t: string)
    requires GoodSymbol(y1) && GoodExchange(e1) && GoodSymbol(y2) && GoodExchange(e2)
    ensures var k := RecordKey(TickBase(y2, e2), d, t);
            Less(FirstKey(TickBase(y1, e1)), k) && Less(k, LastKey(TickBase(y1, e1)))
            <==> y1 == y2 && (e1 == e2 || Intrudes(e1, e2))
  {
    hide Less, FirstKey, LastKey;
    var a, b, rest := TickBase(y1, e1), TickBase(y2, e2), "-" + d + "-" + t;
    assert IsBaseOf(a, y1, e1) && IsBaseOf(b, y2, e2);
    assert RecordKey(b, d, t) == b + rest;
    TickIntruders(y1, e1, y2, e2);
    if Less(FirstKey(a), b + rest) && Less(b + rest, LastKey(a)) {
      BracketOnlyOwn(a, b, rest);
      SameTickBase(y1, e1, y2, e2);
    }
    if a == b {
      SentinelsBracket(a, d, t);
    } else if Intrudes(a, b) {
      IntruderInside(a, b, rest);
    }
  }

  lemma SameTickBase(y1: string, e1: string, y2: string, e2: string)
    requires GoodSymbol(y1) && GoodSymbol(y2)
    ensures TickBase(y1, e1) == TickBase(y2, e2) ==> y1 == y2 && e1 == e2
  {
    if TickBase(y1, e1) == TickBase(y2, e2) {
      assert TickBase(y1, e1) + [] == TickBase(y2, e2);
      TickBaseExtended(y1, e1, y2, e2, []);
      assert e1 + [] == e1;
    }
  }

  // ---------------------------------------------------------------- what a key names

  /** A record key names one series, one date and one time. */
  lemma RecordKeyInjective(b1: string, d1: string, t1: string, b2: string, d2: string, t2: string)
    requires GoodBase(b1) && GoodBase(b2) && NoDash(d1) && NoDash(d2)
    requires RecordKey(b1, d1, t1) == RecordKey(b2, d2, t2)
    ensures b1 == b2 && d1 == d2 && t1 == t2
  {
    hide GoodBase;
    var k := RecordKey(b1, d1, t1);
    assert k == b1 + ("-" + d1 + "-" + t1) && k == b2 + ("-" + d2 + "-" + t2);
    SameBase(b1, "-" + d1 + "-" + t1, b2, "-" + d2 + "-" + t2);
    assert k[|b1| + 1..] == d1 + "-" + t1;
    assert k[|b2| + 1..] == d2 + "-" + t2;
    SplitUnique(d1, t1, d2, t2);
  }

  /** What follows a dash behind a base tells the base. */
  lemma SameBase(a: string, x: string, b: string, y: string)
    requires GoodBase(a) && GoodBase(b) && a + x == b + y
    requires x != [] && x[0] == '-' && y != [] && y[0] == '-'
    ensures a == b
  {
    hide GoodBase;
    var k := a + x;
    assert forall i :: 0 <= i < |a| ==> a[i] == k[i];
    assert forall i :: 0 <= i < |b| ==> b[i] == k[i];
    assert |a| < |b| ==> a == b[..|a|] && b[|a|] == '-';
    assert |b| < |a| ==> b == a[..|b|] && a[|b|] == '-';
    NotByADash(a, b);
    NotByADash(b, a);
  }

  /** The tick key names its four fields. */
  lemma TickKeyInjective(y1: string, e1: string, d1: string, t1: string, y2: string, e2: string, d2: string, t2: string)
    requires NoDash(y1) && NoDash(e1) && NoDash(d1)
    requires NoDash(y2) && NoDash(e2) && NoDash(d2)
    requires RecordKey(TickBase(y1, e1), d1, t1) == RecordKey(TickBase(y2, e2), d2, t2)
    ensures y1 == y2 && e1 == e2 && d1 == d2 && t1 == t2
  {
    var k := RecordKey(TickBase(y1, e1), d1, t1);
    assert k[5..] == y1 + "-" + (e1 + "-" + (d1 + "-" + t1));
    assert k[5..] == y2 + "-" + (e2 + "-" + (d2 + "-" + t2));
    SplitUnique(y1, e1 + "-" + (d1 + "-" + t1), y2, e2 + "-" + (d2 + "-" + t2));
    SplitUnique(e1, d1 + "-" + t1, e2, d2 + "-" + t2);
    SplitUnique(d1, t1, d2, t2);
  }

  /** Bars share a series exactly when all three fields agree, three-hour bars counting as four-hour ones. */
  lemma BarSeriesSharedIff(y1: string, e1: string, p1: Period, y2: string, e2: string, p2: Period)
    requires NoDash(y1) && NoDash(e1) && NoDash(y2) && NoDash(e2)
    ensures BarBase(y1, e1, p1) == BarBase(y2, e2, p2) <==>
            y1 == y2 && e1 == e2 && (p1 == p2 || (p1 in {H03, H04} && p2 in {H03, H04}))
  {
    hide FormatPeriod;
    var a, b := BarBase(y1, e1, p1), BarBase(y2, e2, p2);
    if a == b {
      assert a[4..] == y1 + "-" + (e1 + "-" + FormatPeriod(p1));
      assert b[4..] == y2 + "-" + (e2 + "-" + FormatPeriod(p2));
      SplitUnique(y1, e1 + "-" + FormatPeriod(p1), y2, e2 + "-" + FormatPeriod(p2));
      SplitUnique(e1, FormatPeriod(p1), e2, FormatPeriod(p2));
    }
    PeriodTextsDiffer(p1, p2);
  }

  lemma PeriodTextsDiffer(p: Period, q: Period)
    ensures FormatPeriod(p) == FormatPeriod(q) <==> p == q || (p in {H03, H04} && q in {H03, H04})
  {
    var a, b := FormatPeriod(p), FormatPeriod(q);
    if a == b { assert a[0] == b[0] && a[1] == b[1] && a[2] == b[2]; }
  }
}
