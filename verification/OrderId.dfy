/** Order ids: front id, session id and order reference, joined by dots. */
module OrderId {
  import opened Decimal

  const INT_MIN: int := -0x8000_0000
  const INT_MAX: int := 0x7fff_ffff
  const WORD: int := 0x1_0000_0000

  predicate IsInt(i: int) {
    INT_MIN <= i <= INT_MAX
  }

  function FormatBfOrderId(frontId: int, sessionId: int, orderRef: int): string {
    Text(frontId) + "." + Text(sessionId) + "." + Text(orderRef)
  }

  /** The parts of s between dots: one more than there are dots. */
  function Split(s: string): (parts: seq<string>)
    ensures |parts| == 1 + Dots(s)
    ensures forall i :: 0 <= i < |parts| ==> '.' !in parts[i]
    ensures Join(parts) == s
  {
    if s == [] then
      [""]
    else
      var parts := Split(s[1..]);
      if s[0] == '.' then
        var r := [""] + parts;
        assert r[1..] == parts && s == "." + s[1..];
        r
      else
        var r := [[s[0]] + parts[0]] + parts[1..];
        assert r[1..] == parts[1..];
        assert s == [s[0]] + s[1..];
        r
  }

  function Dots(s: string): nat {
    if s == [] then 0 else (if s[0] == '.' then 1 else 0) + Dots(s[1..])
  }

  function Join(parts: seq<string>): string
    requires parts != []
  {
    if |parts| == 1 then parts[0] else parts[0] + "." + Join(parts[1..])
  }

  /** toInt: 0 for what is no integer or does not fit. */
  function ToInt(s: string): (i: int)
    ensures IsInt(i)
  {
    if Numeric(s) && IsInt(Signed(s)) then Signed(s) else 0
  }

  /** What the parser is to deliver. */
  function Parsed(bfOrderId: string): (r: (int, int, int)) {
    var ids := Split(bfOrderId);
    if |ids| == 3 then (ToInt(ids[0]), ToInt(ids[1]), ToInt(ids[2])) else (0, 0, 0)
  }

  method TranslateBfOrderId(bfOrderId: string) returns (frontId: int, sessionId: int, orderRef: int)
    ensures (frontId, sessionId, orderRef) == Parsed(bfOrderId)
    ensures IsInt(frontId) && IsInt(sessionId) && IsInt(orderRef)
    ensures Dots(bfOrderId) != 2 ==> frontId == sessionId == orderRef == 0
  {
    orderRef, frontId, sessionId := 0, 0, 0;
    var ids := Split(bfOrderId);
    if |ids| == 3 {
      frontId, sessionId, orderRef := ToInt(ids[0]), ToInt(ids[1]), ToInt(ids[2]);
    }
  }

  // ---------------------------------------------------------------- the round trip

  lemma {:induction false} SplitPlain(s: string)
    requires '.' !in s
    ensures Split(s) == [s]
  {
    if s != [] {
      SplitPlain(s[1..]);
      assert [s[0]] + s[1..] == s;
    }
  }

  lemma SplitCons(c: char, s: string)
    ensures Split([c] + s) == if c == '.' then [""] + Split(s) else [[c] + Split(s)[0]] + Split(s)[1..]
  {
    assert ([c] + s)[1..] == s;
  }

  lemma {:induction false} SplitDot(a: string, rest: string)
    requires '.' !in a
    ensures Split(a + "." + rest) == [a] + Split(rest)
  {
    hide Split, Join, Dots;
    if a == [] {
      assert a + "." + rest == ['.'] + rest;
      SplitCons('.', rest);
    } else {
      var tail := a[1..] + "." + rest;
      SplitDot(a[1..], rest);
      assert a + "." + rest == [a[0]] + tail;
      SplitCons(a[0], tail);
      assert Split(tail)[0] == a[1..] && Split(tail)[1..] == Split(rest);
      assert [a[0]] + a[1..] == a;
    }
  }

  lemma Regroup(x: string, y: string, z: string)
    ensures x + y + z == x + (y + z)
  {
  }

  lemma SplitThree(a: string, b: string, c: string)
    requires '.' !in a && '.' !in b && '.' !in c
    ensures Split(a + "." + b + "." + c) == [a, b, c]
  {
    hide Split;
    var rest := b + "." + c;
    Regroup(a + "." + b, ".", c);
    Regroup(a + ".", b, "." + c);
    Regroup(b, ".", c);
    SplitDot(a, rest);
    SplitDot(b, c);
    SplitPlain(c);
    assert [a] + ([b] + [c]) == [a, b, c];
  }

  lemma NoDotInText(i: int)
    ensures '.' !in Text(i)
  {
    hide Digits;
  }

  /** All 32-bit triples, negatives included, come back. */
  lemma RoundTrip(frontId: int, sessionId: int, orderRef: int)
    requires IsInt(frontId) && IsInt(sessionId) && IsInt(orderRef)
    ensures Parsed(FormatBfOrderId(frontId, sessionId, orderRef)) == (frontId, sessionId, orderRef)
    ensures Split(FormatBfOrderId(frontId, sessionId, orderRef)) == [Text(frontId), Text(sessionId), Text(orderRef)]
  {
    hide Split, Text, Numeric, Signed;
    NoDotInText(frontId);
    NoDotInText(sessionId);
    NoDotInText(orderRef);
    SplitThree(Text(frontId), Text(sessionId), Text(orderRef));
    SignedOfText(frontId);
    SignedOfText(sessionId);
    SignedOfText(orderRef);
  }

  lemma FormatInjective(f: int, s: int, o: int, f': int, s': int, o': int)
    requires FormatBfOrderId(f, s, o) == FormatBfOrderId(f', s', o')
    ensures f == f' && s == s' && o == o'
  {
    hide Split, Text;
    forall i ensures '.' !in Text(i) { NoDotInText(i); }
    SplitThree(Text(f), Text(s), Text(o));
    SplitThree(Text(f'), Text(s'), Text(o'));
    var a, b := [Text(f), Text(s), Text(o)], [Text(f'), Text(s'), Text(o')];
    assert a == b;
    assert a[0] == b[0] && a[1] == b[1] && a[2] == b[2];
    TextInjective(f, f');
    TextInjective(s, s');
    TextInjective(o, o');
  }

  // ---------------------------------------------------------------- the 32-bit counter

  /** The 32-bit value of a counter incremented n times from 0. */
  function Wrapped(n: int): (i: int)
    ensures IsInt(i)
  {
    (n - INT_MIN) % WORD + INT_MIN
  }

  lemma WrappedNext(n: int)
    ensures Wrapped(n + 1) == if Wrapped(n) == INT_MAX then INT_MIN else Wrapped(n) + 1
  {
  }

  lemma WrappedSame(n: int, m: int)
    ensures Wrapped(n) == Wrapped(m) <==> (n - m) % WORD == 0
  {
  }

  // ---------------------------------------------------------------- draws from several threads

  /** A thread inside genBfOrderId: it has counted the reference up, or read it back as that of
      the n-th count. */
  datatype Draw = Counted | Looked(n: nat)

  /** What happens to the session: a login, or one thread's next access. */
  datatype Event = Login(frontId: int, sessionId: int) | Count(thread: nat) | Look(thread: nat) | Print(thread: nat)

  /** counts and ids are those since the last login; numbers says which count each id was read at. */
  datatype Session = Session(
    counts: nat, frontId: int, sessionId: int, draws: map<nat, Draw>, numbers: seq<nat>, ids: seq<string>)

  const NO_SESSION := Session(0, 0, 0, map[], [], [])

  function Step(s: Session, e: Event): Session {
    match e
    case Login(f, i) => Session(0, f, i, s.draws, [], [])
    case Count(t) =>
      if t in s.draws then s else s.(counts := s.counts + 1, draws := s.draws[t := Counted])
    case Look(t) =>
      if t in s.draws && s.draws[t].Counted? then s.(draws := s.draws[t := Looked(s.counts)]) else s
    case Print(t) =>
      if t in s.draws && s.draws[t].Looked? then
        s.(draws := s.draws - {t},
           numbers := s.numbers + [s.draws[t].n],
           ids := s.ids + [FormatBfOrderId(s.frontId, s.sessionId, Wrapped(s.draws[t].n))])
      else
        s
  }

  function Run(events: seq<Event>): Session {
    if events == [] then NO_SESSION else Step(Run(events[..|events| - 1]), events[|events| - 1])
  }

  predicate Printed(s: Session) {
    && |s.ids| == |s.numbers|
    && forall i :: 0 <= i < |s.ids| ==> s.ids[i] == FormatBfOrderId(s.frontId, s.sessionId, Wrapped(s.numbers[i]))
  }

  lemma {:induction false} PrintedOverRuns(events: seq<Event>)
    ensures Printed(Run(events))
  {
    hide FormatBfOrderId, Wrapped;
    if events != [] {
      PrintedOverRuns(events[..|events| - 1]);
    }
  }

  lemma SameIdIff(s: Session, i: nat, j: nat)
    requires Printed(s) && i < |s.ids| && j < |s.ids|
    ensures s.ids[i] == s.ids[j] <==> (s.numbers[i] - s.numbers[j]) % WORD == 0
  {
    hide Wrapped, FormatBfOrderId;
    WrappedSame(s.numbers[i], s.numbers[j]);
    if s.ids[i] == s.ids[j] {
      FormatInjective(s.frontId, s.sessionId, Wrapped(s.numbers[i]), s.frontId, s.sessionId, Wrapped(s.numbers[j]));
    }
  }

  /** However the threads' accesses and logins interleave, two ids of a session are equal exactly
      if the counts they were read at differ by a multiple of 2^32, so also if no count came
      between. */
  lemma IdsRepeatIff(events: seq<Event>, i: nat, j: nat)
    requires i < |Run(events).ids| && j < |Run(events).ids|
    ensures |Run(events).numbers| == |Run(events).ids|
    ensures Run(events).ids[i] == Run(events).ids[j] <==>
            (Run(events).numbers[i] - Run(events).numbers[j]) % WORD == 0
  {
    hide Run;
    PrintedOverRuns(events);
    SameIdIff(Run(events), i, j);
  }

  /** No thread counts while another is between counting and reading, and no login falls inside
      a draw. */
  predicate Quiet(s: Session, e: Event) {
    match e
    case Count(_) => forall t :: t in s.draws ==> !s.draws[t].Counted?
    case Login(_, _) => s.draws == map[]
    case _ => true
  }

  predicate QuietRun(events: seq<Event>) {
    forall k :: 0 <= k < |events| ==> Quiet(Run(events[..k]), events[k])
  }

  predicate Looking(s: Session, t: nat) {
    t in s.draws && s.draws[t].Looked?
  }

  predicate Counting(s: Session, t: nat) {
    t in s.draws && s.draws[t].Counted?
  }

  /** The counts read so far are distinct and all below the one just counted, if it is unread. */
  ghost predicate Distinct(s: Session) {
    var limit := if exists t :: Counting(s, t) then s.counts - 1 else s.counts;
    && limit >= 0
    && (forall t, u :: Counting(s, t) && Counting(s, u) ==> t == u)
    && (forall i :: 0 <= i < |s.numbers| ==> 1 <= s.numbers[i] <= limit)
    && (forall i, j :: 0 <= i < j < |s.numbers| ==> s.numbers[i] != s.numbers[j])
    && (forall t :: Looking(s, t) ==> 1 <= s.draws[t].n <= limit && s.draws[t].n !in s.numbers)
    && (forall t, u :: Looking(s, t) && Looking(s, u) && t != u ==> s.draws[t].n != s.draws[u].n)
  }

  lemma CountKeepsDistinct(s: Session, t: nat)
    requires Distinct(s) && Quiet(s, Count(t))
    ensures Distinct(Step(s, Count(t)))
  {
    var r := Step(s, Count(t));
    if t !in s.draws {
      assert forall u :: !Counting(s, u);
      assert forall u :: u != t ==> (Counting(r, u) <==> Counting(s, u));
      assert Counting(r, t);
      assert forall u :: Looking(r, u) <==> Looking(s, u);
    }
  }

  lemma LookKeepsDistinct(s: Session, t: nat)
    requires Distinct(s)
    ensures Distinct(Step(s, Look(t)))
  {
    var r := Step(s, Look(t));
    if Counting(s, t) {
      assert forall u :: u != t ==> (Counting(r, u) <==> Counting(s, u));
      assert forall u :: !Counting(r, u);
      assert forall u :: Looking(r, u) <==> Looking(s, u) || u == t;
    }
  }

  lemma PrintKeepsDistinct(s: Session, t: nat)
    requires Distinct(s)
    ensures Distinct(Step(s, Print(t)))
  {
    hide FormatBfOrderId, Wrapped;
    var r := Step(s, Print(t));
    if Looking(s, t) {
      assert forall u :: Counting(r, u) <==> Counting(s, u);
      assert forall u :: Looking(r, u) <==> Looking(s, u) && u != t;
    }
  }

  lemma {:induction false} DistinctOverRuns(events: seq<Event>)
    requires QuietRun(events)
    ensures Distinct(Run(events))
  {
    hide Step, Quiet, Distinct;
    if events == [] {
      NoSessionDistinct();
    } else {
      var n := |events| - 1;
      var front := events[..n];
      assert forall k :: 0 <= k < n ==> front[..k] == events[..k];
      DistinctOverRuns(front);
      StepKeepsDistinct(Run(front), events[n]);
    }
  }

  lemma NoSessionDistinct()
    ensures Distinct(NO_SESSION)
  {
  }

  lemma StepKeepsDistinct(s: Session, e: Event)
    requires Distinct(s) && Quiet(s, e)
    ensures Distinct(Step(s, e))
  {
    hide Distinct;
    match e
    case Login(f, i) => LoginDistinct(s, f, i);
    case Count(t) => CountKeepsDistinct(s, t);
    case Look(t) => LookKeepsDistinct(s, t);
    case Print(t) => PrintKeepsDistinct(s, t);
  }

  lemma LoginDistinct(s: Session, frontId: int, sessionId: int)
    requires s.draws == map[]
    ensures Distinct(Step(s, Login(frontId, sessionId)))
  {
  }

  /** Where draws do not overlap, ids of a session are pairwise distinct until the counter has
      gone all the way round. */
  lemma QuietIdsDistinct(events: seq<Event>, i: nat, j: nat)
    requires QuietRun(events) && i < j < |Run(events).ids| && Run(events).counts <= WORD
    ensures Run(events).ids[i] != Run(events).ids[j]
  {
    hide Run, QuietRun;
    IdsRepeatIff(events, i, j);
    DistinctOverRuns(events);
    NumbersDiffer(Run(events), i, j);
  }

  lemma NumbersDiffer(s: Session, i: nat, j: nat)
    requires Distinct(s) && i < j < |s.numbers| && s.counts <= WORD
    ensures (s.numbers[i] - s.numbers[j]) % WORD != 0
  {
    var m: int, n: int := s.numbers[i], s.numbers[j];
    assert m != n && -WORD < m - n < WORD;
  }

  // ---------------------------------------------------------------- when two draws meet one count

  /** A thread reads a count that was read before and is printed or still held. */
  predicate Rereads(s: Session, e: Event) {
    && e.Look? && Counting(s, e.thread)
    && (s.counts in s.numbers || exists u :: u in s.draws && Looking(s, u) && s.draws[u].n == s.counts)
  }

  /** The counts printed and held are all different. */
  predicate Apart(s: Session) {
    && (forall i, j :: 0 <= i < j < |s.numbers| ==> s.numbers[i] != s.numbers[j])
    && (forall t :: t in s.draws && Looking(s, t) ==> s.draws[t].n !in s.numbers)
    && (forall t, u :: t in s.draws && u in s.draws && Looking(s, t) && Looking(s, u) && t != u ==>
          s.draws[t].n != s.draws[u].n)
  }

  lemma LookApartIff(s: Session, t: nat)
    requires Apart(s)
    ensures Apart(Step(s, Look(t))) <==> !Rereads(s, Look(t))
  {
    var r := Step(s, Look(t));
    if Counting(s, t) {
      assert forall u :: Looking(r, u) <==> Looking(s, u) || u == t;
      assert forall u :: u in r.draws && u != t ==> r.draws[u] == s.draws[u];
      assert Looking(r, t) && r.draws[t].n == s.counts;
    }
  }

  lemma PrintKeepsApart(s: Session, t: nat)
    requires Apart(s)
    ensures Apart(Step(s, Print(t)))
  {
    hide FormatBfOrderId, Wrapped;
    var r := Step(s, Print(t));
    if Looking(s, t) {
      assert forall u :: Looking(r, u) <==> Looking(s, u) && u != t;
      assert forall n :: n in r.numbers <==> n in s.numbers || n == s.draws[t].n;
    }
  }

  lemma CountKeepsApart(s: Session, t: nat)
    requires Apart(s)
    ensures Apart(Step(s, Count(t)))
  {
    var r := Step(s, Count(t));
    if t !in s.draws {
      assert forall u :: Looking(r, u) <==> Looking(s, u);
    }
  }

  lemma LoginKeepsApart(s: Session, frontId: int, sessionId: int)
    requires Apart(s)
    ensures Apart(Step(s, Login(frontId, sessionId)))
  {
    var r := Step(s, Login(frontId, sessionId));
    assert forall u :: Looking(r, u) <==> Looking(s, u);
  }

  lemma StepApartIff(s: Session, e: Event)
    requires Apart(s)
    ensures Apart(Step(s, e)) <==> !Rereads(s, e)
  {
    hide Apart, Step;
    match e
    case Login(f, i) => LoginKeepsApart(s, f, i);
    case Count(t) => CountKeepsApart(s, t);
    case Look(t) => LookApartIff(s, t);
    case Print(t) => PrintKeepsApart(s, t);
  }

  predicate AlwaysApart(events: seq<Event>) {
    forall k :: 0 <= k <= |events| ==> Apart(Run(events[..k]))
  }

  predicate NeverRereads(events: seq<Event>) {
    forall k :: 0 <= k < |events| ==> !Rereads(Run(events[..k]), events[k])
  }

  /** However threads and logins interleave, no two draws of a session ever have one count exactly
      if no thread, in the state before it, is about to read a count already read. */
  lemma {:induction false} ApartIff(events: seq<Event>)
    ensures AlwaysApart(events) <==> NeverRereads(events)
  {
    hide Apart, Run, Rereads;
    if events == [] {
      NothingApart();
    } else {
      var n := |events| - 1;
      var front := events[..n];
      ApartIff(front);
      assert forall k :: 0 <= k <= n ==> front[..k] == events[..k];
      assert AlwaysApart(front) <==> forall k :: 0 <= k <= n ==> Apart(Run(events[..k]));
      assert events[..n + 1] == events;
      if AlwaysApart(front) {
        assert front[..n] == front && front + [events[n]] == events;
        RunAppend(front, events[n]);
        StepApartIff(Run(front), events[n]);
      }
    }
  }

  lemma NothingApart()
    ensures Apart(Run([]))
  {
  }

  /** All counts printed or held fit the counter. */
  predicate Fits(s: Session) {
    && s.counts < WORD
    && (forall i :: 0 <= i < |s.numbers| ==> s.numbers[i] < WORD)
    && (forall t :: t in s.draws && Looking(s, t) ==> s.draws[t].n < WORD)
  }

  lemma {:induction false} FitsOverRuns(events: seq<Event>)
    requires forall k :: 0 <= k <= |events| ==> Run(events[..k]).counts < WORD
    ensures Fits(Run(events))
  {
    hide Run, FormatBfOrderId, Wrapped;
    assert events[..|events|] == events;
    if events == [] {
      assert Run([]) == NO_SESSION by { RunNothing(); }
    } else {
      var n := |events| - 1;
      var front := events[..n];
      assert forall k :: 0 <= k <= n ==> front[..k] == events[..k];
      FitsOverRuns(front);
      assert front + [events[n]] == events;
      RunAppend(front, events[n]);
    }
  }

  lemma RunNothing()
    ensures Run([]) == NO_SESSION
  {
  }

  predicate IdsDistinct(s: Session) {
    forall i, j :: 0 <= i < j < |s.ids| ==> s.ids[i] != s.ids[j]
  }

  /** While the counter has not gone all the way round: counts apart make distinct ids, and with
      no draw under way distinct ids are nothing else. */
  lemma ApartIds(events: seq<Event>)
    requires forall k :: 0 <= k <= |events| ==> Run(events[..k]).counts < WORD
    ensures var s := Run(events);
            && (Apart(s) ==> IdsDistinct(s))
            && (s.draws == map[] ==> (Apart(s) <==> IdsDistinct(s)))
  {
    hide Run, Wrapped, FormatBfOrderId;
    var s := Run(events);
    FitsOverRuns(events);
    PrintedOverRuns(events);
    forall i, j | 0 <= i < j < |s.ids| ensures s.ids[i] == s.ids[j] <==> s.numbers[i] == s.numbers[j] {
      SameIdIff(s, i, j);
      SmallDiffer(s.numbers[i], s.numbers[j]);
    }
  }

  lemma SmallDiffer(m: int, n: int)
    requires 0 <= m < WORD && 0 <= n < WORD
    ensures (m - n) % WORD == 0 <==> m == n
  {
  }

  /** No login but perhaps the first event. */
  predicate OneSession(events: seq<Event>) {
    forall k :: 0 < k < |events| ==> !events[k].Login?
  }

  /** A count met twice stays met twice. */
  lemma StaysMet(s: Session, e: Event)
    requires !Apart(s) && !e.Login?
    ensures !Apart(Step(s, e))
  {
    hide FormatBfOrderId, Wrapped;
    var r := Step(s, e);
    if e.Print? && Looking(s, e.thread) {
      assert r.numbers == s.numbers + [s.draws[e.thread].n];
      assert forall u :: u in r.draws <==> u in s.draws && u != e.thread;
      if i, j :| 0 <= i < j < |s.numbers| && s.numbers[i] == s.numbers[j] {
        assert r.numbers[i] == r.numbers[j];
      } else if t :| t in s.draws && Looking(s, t) && s.draws[t].n in s.numbers {
        PrintedAgain(s, e.thread, t);
      } else {
        var t, u :| t in s.draws && u in s.draws && Looking(s, t) && Looking(s, u) && t != u && s.draws[t].n == s.draws[u].n;
        assert r.numbers[|s.numbers|] == s.draws[e.thread].n;
        assert t != e.thread ==> Looking(r, t);
        assert u != e.thread ==> Looking(r, u);
      }
    } else {
      assert r.numbers == s.numbers;
      assert forall u :: Looking(s, u) ==> Looking(r, u) && r.draws[u] == s.draws[u];
    }
  }

  lemma PrintedAgain(s: Session, thread: nat, t: nat)
    requires Looking(s, thread) && Looking(s, t) && s.draws[t].n in s.numbers
    ensures !Apart(Step(s, Print(thread)))
  {
    hide FormatBfOrderId, Wrapped;
    var r := Step(s, Print(thread));
    var i :| 0 <= i < |s.numbers| && s.numbers[i] == s.draws[t].n;
    assert r.numbers[i] == s.draws[t].n;
    if t == thread {
      assert r.numbers[|s.numbers|] == r.numbers[i];
    } else {
      assert Looking(r, t);
    }
  }

  /** Within one session the end tells. */
  lemma {:induction false} ApartAtTheEnd(events: seq<Event>)
    requires OneSession(events)
    ensures Apart(Run(events)) <==> AlwaysApart(events)
    ensures forall k :: 0 <= k <= |events| ==> Run(events[..k]).counts <= Run(events).counts
  {
    hide Apart, Run;
    assert events[..|events|] == events;
    if |events| > 0 {
      var n := |events| - 1;
      var front := events[..n];
      ApartAtTheEnd(front);
      assert front + [events[n]] == events;
      RunAppend(front, events[n]);
      assert forall k :: 0 <= k <= n ==> front[..k] == events[..k];
      assert AlwaysApart(events) <==> AlwaysApart(front) && Apart(Run(events));
      if n == 0 {
        NothingApart();
        RunNothing();
      } else if !Apart(Run(front)) {
        StaysMet(Run(front), events[n]);
      }
    } else {
      NothingApart();
    }
  }

  /** The ids of a session in which every draw has ended, the counter not having gone all the way
      round: pairwise distinct exactly if no thread was ever about to read a count already read. */
  lemma SessionIdsDistinctIff(events: seq<Event>)
    requires OneSession(events) && Run(events).draws == map[] && Run(events).counts < WORD
    ensures IdsDistinct(Run(events)) <==> NeverRereads(events)
  {
    hide Run, Apart, NeverRereads, AlwaysApart, IdsDistinct, OneSession;
    ApartAtTheEnd(events);
    ApartIff(events);
    ApartIds(events);
  }

  /** Draws that do not overlap never meet one count. */
  lemma QuietNeverRereads(events: seq<Event>)
    requires QuietRun(events)
    ensures NeverRereads(events)
  {
    hide Run, Distinct, Rereads, Quiet;
    forall k | 0 <= k < |events| ensures !Rereads(Run(events[..k]), events[k]) {
      forall j | 0 <= j < k ensures Quiet(Run(events[..k][..j]), events[..k][j]) {
        assert events[..k][..j] == events[..j];
      }
      DistinctOverRuns(events[..k]);
      DistinctMeansUnread(Run(events[..k]), events[k]);
    }
  }

  lemma DistinctMeansUnread(s: Session, e: Event)
    requires Distinct(s)
    ensures !Rereads(s, e)
  {
    if e.Look? && Counting(s, e.thread) {
      assert s.counts !in s.numbers;
    }
  }

  /** Nor need draws that do: in this run a third count comes between the two reads. */
  lemma OverlapMayBeHarmless()
    ensures var events := [Count(0), Count(1), Look(0)] + [Count(2), Look(1), Print(0)] + [Print(1)];
            !QuietRun(events) && Run(events).numbers == [2, 3] && IdsDistinct(Run(events))
  {
    hide FormatBfOrderId, Wrapped, QuietRun, Run, Step, IdsDistinct;
    var events := [Count(0), Count(1), Look(0)] + [Count(2), Look(1), Print(0)] + [Print(1)];
    HarmlessNumbers();
    TwoThreeDistinct(events);
    SecondCountNotQuiet(events);
  }

  lemma HarmlessNumbers()
    ensures Run([Count(0), Count(1), Look(0)] + [Count(2), Look(1), Print(0)] + [Print(1)]).numbers == [2, 3]
  {
    hide FormatBfOrderId, Wrapped;
    RunNothing();
    hide Run;
    var counted := [Count(0), Count(1), Look(0)];
    RunThree([], Count(0), Count(1), Look(0));
    assert [] + counted == counted;
    RunThree(counted, Count(2), Look(1), Print(0));
    RunAppend(counted + [Count(2), Look(1), Print(0)], Print(1));
  }

  lemma TwoThreeDistinct(events: seq<Event>)
    requires Run(events).numbers == [2, 3]
    ensures IdsDistinct(Run(events))
  {
    hide Run, Wrapped, FormatBfOrderId;
    PrintedOverRuns(events);
    SameIdIff(Run(events), 0, 1);
  }

  lemma SecondCountNotQuiet(events: seq<Event>)
    requires |events| > 1 && events[0] == Count(0) && events[1] == Count(1)
    ensures !QuietRun(events)
  {
    hide QuietRun, Run;
    assert events[..1] == [] + [Count(0)];
    RunAppend([], Count(0));
    RunNothing();
    assert !Quiet(Run(events[..1]), events[1]) by {
      assert 0 in Run(events[..1]).draws;
    }
    QuietAt(events, 1);
  }

  lemma QuietAt(events: seq<Event>, k: nat)
    requires k < |events|
    ensures QuietRun(events) ==> Quiet(Run(events[..k]), events[k])
  {
    hide Run, Quiet;
  }

  lemma RunThree(events: seq<Event>, a: Event, b: Event, c: Event)
    ensures Run(events + [a, b, c]) == Step(Step(Step(Run(events), a), b), c)
  {
    hide Step;
    RunAppend(events, a);
    RunAppend(events + [a], b);
    RunAppend(events + [a] + [b], c);
    assert events + [a] + [b] + [c] == events + [a, b, c];
  }

  lemma RunAppend(events: seq<Event>, e: Event)
    ensures Run(events + [e]) == Step(Run(events), e)
  {
    assert (events + [e])[..|events|] == events;
  }

  /** A login starts the numbering over: the first draw after it gets the session's number 1. */
  lemma LoginStartsOver(events: seq<Event>, frontId: int, sessionId: int, thread: nat)
    requires thread !in Run(events).draws
    ensures Run(events + [Login(frontId, sessionId)] + [Count(thread), Look(thread), Print(thread)]).ids
         == [FormatBfOrderId(frontId, sessionId, 1)]
  {
    hide Run, FormatBfOrderId;
    RunAppend(events, Login(frontId, sessionId));
    RunThree(events + [Login(frontId, sessionId)], Count(thread), Look(thread), Print(thread));
  }

  /** Two threads whose draws overlap: both read the second count, and both print its id. */
  lemma OverlappingDrawsRepeat()
    ensures var s := Run([Login(1, 7), Count(0), Count(1)] + [Look(0), Look(1), Print(0)] + [Print(1)]);
            |s.ids| == 2 && s.ids[0] == s.ids[1]
  {
    hide FormatBfOrderId, Wrapped;
    assert Run([]) == NO_SESSION;
    hide Run;
    var counted := [Login(1, 7), Count(0), Count(1)];
    RunThree([], Login(1, 7), Count(0), Count(1));
    assert [] + counted == counted;
    RunThree(counted, Look(0), Look(1), Print(0));
    RunAppend(counted + [Look(0), Look(1), Print(0)], Print(1));
  }

  // ---------------------------------------------------------------- the session object

  class TdSmSpi {
    var orderRef: int
    var frontId: int
    var sessionId: int

    /** The session as its events make it; the object keeps the reference wrapped to 32 bits. */
    ghost var session: Session

    ghost predicate Valid()
      reads this
    {
      && IsInt(frontId) && IsInt(sessionId)
      && session.frontId == frontId && session.sessionId == sessionId
      && orderRef == Wrapped(session.counts)
    }

    constructor ()
      ensures Valid() && session == NO_SESSION
    {
      orderRef, frontId, sessionId, session := 0, 0, 0, NO_SESSION;
    }

    method OnRspUserLogin(frontId: int, sessionId: int)
      requires Valid() && IsInt(frontId) && IsInt(sessionId)
      modifies this
      ensures Valid() && session == Step(old(session), Login(frontId, sessionId))
    {
      orderRef := 0;
      this.frontId, this.sessionId := frontId, sessionId;
      session := Step(session, Login(frontId, sessionId));
    }

    /** A thread's first access: orderRef_++. */
    method CountOrderRef(ghost thread: nat)
      requires Valid() && thread !in session.draws
      modifies this`orderRef, this`session
      ensures Valid() && session == Step(old(session), Count(thread))
      ensures orderRef == if old(orderRef) == INT_MAX then INT_MIN else old(orderRef) + 1
    {
      hide Wrapped;
      WrappedNext(session.counts);
      orderRef := if orderRef == INT_MAX then INT_MIN else orderRef + 1;
      session := Step(session, Count(thread));
    }

    /** Its second: return orderRef_. */
    method LookOrderRef(ghost thread: nat) returns (ref: int)
      requires Valid() && Counting(session, thread)
      modifies this`session
      ensures Valid() && session == Step(old(session), Look(thread))
      ensures Looking(session, thread) && ref == Wrapped(session.draws[thread].n) == orderRef
    {
      hide Wrapped;
      session := Step(session, Look(thread));
      ref := orderRef;
    }

    /** And the text of what it read, with the front and session ids of that moment. */
    method PrintBfOrderId(ghost thread: nat, ref: int) returns (id: string)
      requires Valid() && Looking(session, thread) && ref == Wrapped(session.draws[thread].n)
      modifies this`session
      ensures Valid() && session == Step(old(session), Print(thread))
      ensures session.ids == old(session.ids) + [id] && Parsed(id) == (frontId, sessionId, ref)
    {
      hide FormatBfOrderId, Parsed, Wrapped;
      id := FormatBfOrderId(frontId, sessionId, ref);
      session := Step(session, Print(thread));
      RoundTrip(frontId, sessionId, ref);
    }

    /** A whole draw with nothing in between. */
    method GenBfOrderId(ghost thread: nat) returns (id: string)
      requires Valid() && thread !in session.draws
      modifies this`orderRef, this`session
      ensures Valid()
      ensures session == Step(Step(Step(old(session), Count(thread)), Look(thread)), Print(thread))
      ensures session.numbers == old(session.numbers) + [session.counts] && session.counts == old(session.counts) + 1
      ensures session.ids == old(session.ids) + [id] && Parsed(id) == (frontId, sessionId, orderRef)
    {
      hide FormatBfOrderId, Parsed, Wrapped;
      CountOrderRef(thread);
      var ref := LookOrderRef(thread);
      id := PrintBfOrderId(thread, ref);
    }
  }
}
