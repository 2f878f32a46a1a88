/** The flow-controlled command queue: commands the exchange refuses for coming too fast wait
    their turn and are tried again by a timer. */
module CmdQueue {

  /** The clock is read as 32 bits. */
  const WORD: nat := 0x1_0000_0000

  const TOO_FAST := -3
  const TOO_MANY := -2
  const RETRY: nat := 1000

  /** serial tells commands apart. due is the moment, on a clock that does not wrap, at which
      the program means to try the command; what it stores is Expires. */
  datatype Cmd<T> = Cmd(serial: nat, what: T, due: nat) {
    function Expires(): nat { due % WORD }

    predicate Ready(now: nat) { now % WORD >= Expires() }
  }

  /** One call of a command: its request id, and whether it came from the queue. */
  datatype Attempt = Attempt(serial: nat, reqId: int, now: nat, queued: bool, due: nat, result: int)

  datatype Fate = Consumed(result: int) | Dropped

  /** A command given to run, when and with what delay. */
  datatype Given<T> = Given(what: T, now: nat, delayTick: nat)

  /** cmds and reqId are the program's; the rest is the record of what happened: the commands
      given, those that entered the queue, how each left it, and every call. */
  datatype Queue<T> = Queue(
    cmds: seq<Cmd<T>>, reqId: int,
    given: seq<Given<T>>, entered: seq<nat>, left: seq<(nat, Fate)>, attempts: seq<Attempt>)

  function Empty<T>(): Queue<T> {
    Queue([], 0, [], [], [], [])
  }

  function Append<T>(q: Queue<T>, given: Given<T>, due: nat): Queue<T> {
    q.(cmds := q.cmds + [Cmd(|q.given|, given.what, due)],
       entered := q.entered + [|q.given|],
       given := q.given + [given])
  }

  /** A command without delay is tried at once, one with a delay waits. */
  function RunCmd<T>(q: Queue<T>, what: T, delayTick: nat, now: nat, result: int): Queue<T> {
    if delayTick == 0 then
      var tried := q.(reqId := q.reqId + 1,
                      attempts := q.attempts + [Attempt(|q.given|, q.reqId + 1, now, false, now, result)]);
      if result == TOO_FAST || result == TOO_MANY
      then Append(tried, Given(what, now, 0), now + RETRY)
      else tried.(given := q.given + [Given(what, now, 0)])
    else
      Append(q, Given(what, now, delayTick), now + delayTick)
  }

  /** The timer tries the head of the queue. */
  function OnTimer<T>(q: Queue<T>, now: nat, result: int): Queue<T> {
    if q.cmds == [] || !q.cmds[0].Ready(now) then
      q
    else
      var head := q.cmds[0];
      var tried := q.(reqId := q.reqId + 1,
                      attempts := q.attempts + [Attempt(head.serial, q.reqId + 1, now, true, head.due, result)]);
      if result == TOO_FAST
      then tried.(cmds := [head.(due := now + RETRY)] + q.cmds[1..])
      else tried.(cmds := q.cmds[1..], left := q.left + [(head.serial, Consumed(result))])
  }

  function Dropping(serials: seq<nat>): (r: seq<(nat, Fate)>)
    ensures |r| == |serials|
  {
    seq(|serials|, i requires 0 <= i < |serials| => (serials[i], Dropped))
  }

  function ResetCmds<T>(q: Queue<T>): (r: Queue<T>)
    ensures r.cmds == []
  {
    q.(cmds := [], left := q.left + Dropping(Serials(q.cmds)))
  }

  // ---------------------------------------------------------------- every run

  function Serials<T>(cmds: seq<Cmd<T>>): (r: seq<nat>)
    ensures |r| == |cmds|
  {
    seq(|cmds|, i requires 0 <= i < |cmds| => cmds[i].serial)
  }

  function Leavers(left: seq<(nat, Fate)>): (r: seq<nat>)
    ensures |r| == |left|
  {
    seq(|left|, i requires 0 <= i < |left| => left[i].0)
  }

  /** First in, first out, and no command twice: what left, then what waits, is what entered. */
  predicate Fifo<T>(q: Queue<T>) {
    && q.entered == Leavers(q.left) + Serials(q.cmds)
    && (forall i, j :: 0 <= i < j < |q.entered| ==> q.entered[i] < q.entered[j])
    && (forall i :: 0 <= i < |q.entered| ==> q.entered[i] < |q.given|)
  }

  /** Request ids count the calls; a queued command was never called before its time; a command
      tried and refused is the head of the queue or was dropped. */
  predicate Orderly<T>(q: Queue<T>) {
    && q.reqId == |q.attempts|
    && (forall i :: 0 <= i < |q.attempts| ==> q.attempts[i].reqId == i + 1)
    && (forall i :: 0 <= i < |q.attempts| && q.attempts[i].queued ==>
          q.attempts[i].now % WORD >= q.attempts[i].due % WORD)
    && (forall i :: 0 <= i < |q.left| && q.left[i].1.Consumed? ==> q.left[i].1.result != TOO_FAST)
  }

  /** When a command is to be tried: a second after its last call, or as long after it was given
      as it asked for. */
  function Promised<T>(given: seq<Given<T>>, attempts: seq<Attempt>, serial: nat): nat
    requires serial < |given|
  {
    if attempts == [] then
      given[serial].now + given[serial].delayTick
    else if attempts[|attempts| - 1].serial == serial then
      attempts[|attempts| - 1].now + RETRY
    else
      Promised(given, attempts[..|attempts| - 1], serial)
  }

  predicate Timed<T>(q: Queue<T>) {
    && (forall i :: 0 <= i < |q.attempts| ==> q.attempts[i].serial < |q.given|)
    && (forall i :: 0 <= i < |q.cmds| ==>
          q.cmds[i].serial < |q.given| && q.cmds[i].due == Promised(q.given, q.attempts, q.cmds[i].serial))
  }

  /** The answers to a command's calls, to those made when it was given or to those from the queue. */
  function Answers(attempts: seq<Attempt>, serial: nat, queued: bool): seq<int> {
    if attempts == [] then
      []
    else
      var a := attempts[|attempts| - 1];
      Answers(attempts[..|attempts| - 1], serial, queued)
      + if a.serial == serial && a.queued == queued then [a.result] else []
  }

  predicate AllTooFast(answers: seq<int>) {
    forall i :: 0 <= i < |answers| ==> answers[i] == TOO_FAST
  }

  /** Which given commands enter the queue: one with a delay, uncalled; one without is called once
      when given, and enters exactly if that call was answered -3 or -2. */
  predicate EntersRightly<T>(q: Queue<T>, serial: nat)
    requires serial < |q.given|
  {
    var first := Answers(q.attempts, serial, false);
    && (q.given[serial].delayTick == 0 ==> |first| == 1)
    && (q.given[serial].delayTick > 0 ==> first == [])
    && (serial in q.entered <==> q.given[serial].delayTick > 0 || first[0] == TOO_FAST || first[0] == TOO_MANY)
    && (serial !in q.entered ==> Answers(q.attempts, serial, true) == [])
  }

  /** How a command left agrees with what its calls from the queue were answered: a consumed one
      with -3 any number of times, then with something else; a dropped one with -3 only. */
  predicate LeftRightly(attempts: seq<Attempt>, serial: nat, fate: Fate) {
    var later := Answers(attempts, serial, true);
    match fate
    case Dropped => AllTooFast(later)
    case Consumed(result) =>
      later != [] && AllTooFast(later[..|later| - 1]) && later[|later| - 1] == result != TOO_FAST
  }

  /** Every given command is accounted for; what waits is what was given, all its calls from the
      queue answered with -3. */
  ghost predicate Accounted<T>(q: Queue<T>) {
    && (forall n :: 0 <= n < |q.given| ==> EntersRightly(q, n))
    && (forall i :: 0 <= i < |q.left| ==> LeftRightly(q.attempts, q.left[i].0, q.left[i].1))
    && (forall i :: 0 <= i < |q.cmds| ==>
          && q.cmds[i].serial < |q.given| && q.cmds[i].what == q.given[q.cmds[i].serial].what
          && AllTooFast(Answers(q.attempts, q.cmds[i].serial, true)))
  }

  ghost predicate Inv<T>(q: Queue<T>) {
    Fifo(q) && Orderly(q) && Timed(q) && Accounted(q)
  }

  lemma AppendKeepsFifo<T>(q: Queue<T>, given: Given<T>, due: nat)
    requires Fifo(q)
    ensures Fifo(Append(q, given, due))
  {
    assert Serials(Append(q, given, due).cmds) == Serials(q.cmds) + [|q.given|];
  }

  lemma RunCmdKeepsFifo<T>(q: Queue<T>, what: T, delayTick: nat, now: nat, result: int)
    requires Fifo(q)
    ensures Fifo(RunCmd(q, what, delayTick, now, result))
  {
    var tried := q.(reqId := q.reqId + 1,
                    attempts := q.attempts + [Attempt(|q.given|, q.reqId + 1, now, false, now, result)]);
    assert Fifo(tried);
    AppendKeepsFifo(tried, Given(what, now, 0), now + RETRY);
    AppendKeepsFifo(q, Given(what, now, delayTick), now + delayTick);
  }

  lemma {:induction false} PromisedGiven<T>(given: seq<Given<T>>, more: Given<T>, attempts: seq<Attempt>, serial: nat)
    requires serial < |given|
    ensures Promised(given + [more], attempts, serial) == Promised(given, attempts, serial)
  {
    if attempts != [] && attempts[|attempts| - 1].serial != serial {
      PromisedGiven(given, more, attempts[..|attempts| - 1], serial);
    }
  }

  lemma {:induction false} PromisedUntried<T>(given: seq<Given<T>>, attempts: seq<Attempt>, serial: nat)
    requires serial < |given| && forall i :: 0 <= i < |attempts| ==> attempts[i].serial != serial
    ensures Promised(given, attempts, serial) == given[serial].now + given[serial].delayTick
  {
    if attempts != [] {
      PromisedUntried(given, attempts[..|attempts| - 1], serial);
    }
  }

  lemma PromisedTried<T>(given: seq<Given<T>>, attempts: seq<Attempt>, a: Attempt, serial: nat)
    requires serial < |given|
    ensures Promised(given, attempts + [a], serial)
         == if a.serial == serial then a.now + RETRY else Promised(given, attempts, serial)
  {
    assert (attempts + [a])[..|attempts|] == attempts;
  }

  lemma RunCmdKeepsTimed<T>(q: Queue<T>, what: T, delayTick: nat, now: nat, result: int)
    requires Timed(q)
    ensures Timed(RunCmd(q, what, delayTick, now, result))
  {
    hide Promised;
    var q' := RunCmd(q, what, delayTick, now, result);
    var n := |q.given|;
    var a := Attempt(n, q.reqId + 1, now, false, now, result);
    var attempts := if delayTick == 0 then q.attempts + [a] else q.attempts;
    assert q'.attempts == attempts && q'.given == q.given + [Given(what, now, delayTick)];
    forall i | 0 <= i < |q'.cmds|
      ensures q'.cmds[i].serial <= n && q'.cmds[i].due == Promised(q'.given, attempts, q'.cmds[i].serial)
    {
      var serial := q'.cmds[i].serial;
      PromisedTried(q'.given, q.attempts, a, serial);
      if i < |q.cmds| {
        PromisedGiven(q.given, Given(what, now, delayTick), q.attempts, serial);
      } else {
        PromisedUntried(q'.given, q.attempts, serial);
      }
    }
  }

  lemma AnswersAppend(attempts: seq<Attempt>, a: Attempt, serial: nat, queued: bool)
    ensures Answers(attempts + [a], serial, queued)
         == Answers(attempts, serial, queued) + if a.serial == serial && a.queued == queued then [a.result] else []
  {
    assert (attempts + [a])[..|attempts|] == attempts;
  }

  lemma {:induction false} NeverCalled(attempts: seq<Attempt>, serial: nat, queued: bool)
    requires forall i :: 0 <= i < |attempts| ==> attempts[i].serial < serial
    ensures Answers(attempts, serial, queued) == []
  {
    if attempts != [] {
      NeverCalled(attempts[..|attempts| - 1], serial, queued);
    }
  }

  /** A call of one command leaves the others' answers alone. */
  lemma OthersAnswers(attempts: seq<Attempt>, a: Attempt, serial: nat)
    requires a.serial != serial
    ensures Answers(attempts + [a], serial, false) == Answers(attempts, serial, false)
    ensures Answers(attempts + [a], serial, true) == Answers(attempts, serial, true)
  {
    AnswersAppend(attempts, a, serial, false);
    AnswersAppend(attempts, a, serial, true);
  }

  lemma RunCmdKeepsAccounted<T>(q: Queue<T>, what: T, delayTick: nat, now: nat, result: int)
    requires Fifo(q) && Timed(q) && Accounted(q)
    ensures Accounted(RunCmd(q, what, delayTick, now, result))
  {
    hide Answers, Promised;
    var q' := RunCmd(q, what, delayTick, now, result);
    var n := |q.given|;
    var a := Attempt(n, q.reqId + 1, now, false, now, result);
    NeverCalled(q.attempts, n, false);
    NeverCalled(q.attempts, n, true);
    AnswersAppend(q.attempts, a, n, false);
    AnswersAppend(q.attempts, a, n, true);
    forall m | 0 <= m < n
      ensures Answers(q'.attempts, m, false) == Answers(q.attempts, m, false)
      ensures Answers(q'.attempts, m, true) == Answers(q.attempts, m, true)
    {
      OthersAnswers(q.attempts, a, m);
    }
    forall m | 0 <= m <= n ensures EntersRightly(q', m) {
      assert m < n ==> EntersRightly(q, m);
      assert n !in q.entered;
    }
    forall i | 0 <= i < |q.left| ensures LeftRightly(q'.attempts, q.left[i].0, q.left[i].1) {
      LeftEntered(q, i);
    }
  }

  lemma LeftEntered<T>(q: Queue<T>, i: nat)
    requires Fifo(q) && i < |q.left|
    ensures q.left[i].0 < |q.given| && q.left[i].0 in q.entered
  {
    assert q.entered[i] == Leavers(q.left)[i];
  }

  lemma RunCmdKeepsInv<T>(q: Queue<T>, what: T, delayTick: nat, now: nat, result: int)
    requires Inv(q)
    ensures Inv(RunCmd(q, what, delayTick, now, result))
  {
    hide Fifo, Timed, Accounted;
    RunCmdKeepsFifo(q, what, delayTick, now, result);
    RunCmdKeepsAccounted(q, what, delayTick, now, result);
    RunCmdKeepsTimed(q, what, delayTick, now, result);
  }

  lemma OnTimerKeepsFifo<T>(q: Queue<T>, now: nat, result: int)
    requires Fifo(q)
    ensures Fifo(OnTimer(q, now, result))
  {
    if q.cmds != [] {
      var head := q.cmds[0];
      assert Serials([head.(due := now + RETRY)] + q.cmds[1..]) == Serials(q.cmds);
      assert Serials(q.cmds) == [head.serial] + Serials(q.cmds[1..]);
      assert Leavers(q.left + [(head.serial, Consumed(result))]) == Leavers(q.left) + [head.serial];
    }
  }

  lemma SerialsDiffer<T>(q: Queue<T>, i: nat)
    requires Fifo(q) && 0 < i < |q.cmds|
    ensures q.cmds[0].serial != q.cmds[i].serial
  {
    var k := |q.left|;
    assert q.entered[k] == Serials(q.cmds)[0] && q.entered[k + i] == Serials(q.cmds)[i];
  }

  lemma OnTimerKeepsTimed<T>(q: Queue<T>, now: nat, result: int)
    requires Fifo(q) && Timed(q)
    ensures Timed(OnTimer(q, now, result))
  {
    hide Promised, Fifo;
    var q' := OnTimer(q, now, result);
    if q' != q {
      var a := Attempt(q.cmds[0].serial, q.reqId + 1, now, true, q.cmds[0].due, result);
      assert q'.attempts == q.attempts + [a] && q'.given == q.given;
      forall i | 0 <= i < |q'.cmds|
        ensures q'.cmds[i].serial < |q.given| && q'.cmds[i].due == Promised(q.given, q'.attempts, q'.cmds[i].serial)
      {
        PromisedTried(q.given, q.attempts, a, q'.cmds[i].serial);
        var j := if result == TOO_FAST then i else i + 1;
        assert q'.cmds[i].serial == q.cmds[j].serial;
        if j > 0 {
          SerialsDiffer(q, j);
        }
      }
    }
  }

  /** The head of the queue has entered, and has not left. */
  lemma HeadEntered<T>(q: Queue<T>, i: nat)
    requires Fifo(q) && q.cmds != []
    ensures q.cmds[0].serial in q.entered
    ensures i < |q.left| ==> q.left[i].0 != q.cmds[0].serial
  {
    var k := |q.left|;
    assert q.entered[k] == Serials(q.cmds)[0];
    assert i < k ==> q.entered[i] == Leavers(q.left)[i];
  }

  lemma OnTimerKeepsAccounted<T>(q: Queue<T>, now: nat, result: int)
    requires Fifo(q) && Accounted(q)
    ensures Accounted(OnTimer(q, now, result))
  {
    hide Answers, Fifo;
    var q' := OnTimer(q, now, result);
    if q' != q {
      var head := q.cmds[0];
      var a := Attempt(head.serial, q.reqId + 1, now, true, head.due, result);
      var before := Answers(q.attempts, head.serial, true);
      AnswersAppend(q.attempts, a, head.serial, false);
      AnswersAppend(q.attempts, a, head.serial, true);
      HeadEntered(q, 0);
      assert Answers(q'.attempts, head.serial, false) == Answers(q.attempts, head.serial, false);
      forall m: nat | m != head.serial
        ensures Answers(q'.attempts, m, false) == Answers(q.attempts, m, false)
        ensures Answers(q'.attempts, m, true) == Answers(q.attempts, m, true)
      {
        OthersAnswers(q.attempts, a, m);
      }
      forall m | 0 <= m < |q.given| ensures EntersRightly(q', m) {
        assert EntersRightly(q, m);
      }
      assert (before + [result])[..|before|] == before;
      forall i | 0 <= i < |q'.left| ensures LeftRightly(q'.attempts, q'.left[i].0, q'.left[i].1) {
        HeadEntered(q, i);
      }
      forall i | 0 <= i < |q'.cmds|
        ensures q'.cmds[i].serial < |q.given| && q'.cmds[i].what == q.given[q'.cmds[i].serial].what
        ensures AllTooFast(Answers(q'.attempts, q'.cmds[i].serial, true))
      {
        var j := if result == TOO_FAST then i else i + 1;
        assert q'.cmds[i].serial == q.cmds[j].serial && q'.cmds[i].what == q.cmds[j].what;
        if j > 0 {
          SerialsDiffer(q, j);
        }
      }
    }
  }

  lemma OnTimerKeepsInv<T>(q: Queue<T>, now: nat, result: int)
    requires Inv(q)
    ensures Inv(OnTimer(q, now, result))
  {
    hide Fifo, Timed, Accounted;
    OnTimerKeepsFifo(q, now, result);
    OnTimerKeepsAccounted(q, now, result);
    OnTimerKeepsTimed(q, now, result);
  }

  lemma ResetCmdsKeepsInv<T>(q: Queue<T>)
    requires Inv(q)
    ensures Inv(ResetCmds(q))
  {
    hide Answers, Promised;
    forall n | 0 <= n < |q.given| ensures EntersRightly(ResetCmds(q), n) {
      assert EntersRightly(q, n);
    }
    assert Leavers(q.left + Dropping(Serials(q.cmds))) == Leavers(q.left) + Serials(q.cmds);
    assert Serials<T>([]) == [];
  }

  /** What became of a given command: its first call settled it, it waits, or it left the queue. */
  datatype Whereabouts = AtOnce | Waits | Gone(fate: Fate)

  ghost predicate Is<T>(q: Queue<T>, serial: nat, w: Whereabouts) {
    match w
    case AtOnce => serial !in q.entered
    case Waits => exists i :: 0 <= i < |q.cmds| && q.cmds[i].serial == serial
    case Gone(fate) => exists i :: 0 <= i < |q.left| && q.left[i] == (serial, fate)
  }

  /** Every given command is in exactly one of these places, and its answers are those that bring
      it there. */
  lemma CommandFate<T>(q: Queue<T>, serial: nat) returns (w: Whereabouts)
    requires Inv(q) && serial < |q.given|
    ensures Is(q, serial, w) && forall v :: Is(q, serial, v) ==> v == w
    ensures var first, later := Answers(q.attempts, serial, false), Answers(q.attempts, serial, true);
            match w
            case AtOnce =>
              q.given[serial].delayTick == 0 && |first| == 1 && first[0] != TOO_FAST && first[0] != TOO_MANY && later == []
            case Waits => EnteredBy(q.given[serial].delayTick, first) && AllTooFast(later)
            case Gone(Dropped) => EnteredBy(q.given[serial].delayTick, first) && AllTooFast(later)
            case Gone(Consumed(result)) =>
              && EnteredBy(q.given[serial].delayTick, first)
              && later != [] && AllTooFast(later[..|later| - 1]) && later[|later| - 1] == result != TOO_FAST
  {
    hide Answers, Promised, Orderly, Timed;
    assert EntersRightly(q, serial);
    if serial !in q.entered {
      w := AtOnce;
    } else {
      var k :| 0 <= k < |q.entered| && q.entered[k] == serial;
      if k < |q.left| {
        assert q.left[k] == (serial, q.left[k].1);
        w := Gone(q.left[k].1);
      } else {
        assert q.cmds[k - |q.left|].serial == serial;
        w := Waits;
      }
    }
    forall v | Is(q, serial, v) ensures v == w {
      OnePlace(q, serial, v, w);
    }
  }

  predicate EnteredBy(delayTick: nat, first: seq<int>) {
    if delayTick > 0 then first == [] else first == [TOO_FAST] || first == [TOO_MANY]
  }

  lemma OnePlace<T>(q: Queue<T>, serial: nat, v: Whereabouts, w: Whereabouts)
    requires Fifo(q) && Is(q, serial, v) && Is(q, serial, w)
    ensures v == w
  {
    var i := PlaceIn(q, serial, v);
    var j := PlaceIn(q, serial, w);
    if i < |q.entered| && j < |q.entered| {
      assert q.entered[i] == q.entered[j];
    }
  }

  lemma PlaceIn<T>(q: Queue<T>, serial: nat, w: Whereabouts) returns (k: nat)
    requires Fifo(q) && Is(q, serial, w)
    ensures w == AtOnce ==> k == |q.entered| && serial !in q.entered
    ensures w != AtOnce ==> k < |q.entered| && q.entered[k] == serial
    ensures w == Waits ==> k >= |q.left|
    ensures w.Gone? ==> k < |q.left| && q.left[k].1 == w.fate
  {
    match w
    case AtOnce => k := |q.entered|;
    case Waits =>
      var i :| 0 <= i < |q.cmds| && q.cmds[i].serial == serial;
      assert Serials(q.cmds)[i] == serial;
      k := |q.left| + i;
    case Gone(fate) =>
      var i :| 0 <= i < |q.left| && q.left[i] == (serial, fate);
      assert Leavers(q.left)[i] == serial;
      k := i;
  }

  // ---------------------------------------------------------------- the clock

  /** Within one wrap of each other, a command counts as due exactly from its time to the wrap
      after it; before its time exactly when the clock wraps in between. */
  lemma ReadyIff(now: nat, due: nat)
    requires now < due + WORD && due < now + WORD
    ensures now % WORD >= due % WORD <==>
              if now >= due then now / WORD == due / WORD else now / WORD < due / WORD
  {
  }

  /** So no queued command is called before its time unless the clock wrapped meanwhile. */
  lemma NotBeforeItsTime<T>(q: Queue<T>, i: nat)
    requires Inv(q) && i < |q.attempts| && q.attempts[i].queued
    requires q.attempts[i].due < q.attempts[i].now + WORD
    ensures q.attempts[i].now >= q.attempts[i].due
            || q.attempts[i].now / WORD < q.attempts[i].due / WORD
  {
    var a := q.attempts[i];
    if a.now < a.due {
      ReadyIff(a.now, a.due);
    }
  }

  // ---------------------------------------------------------------- draining

  /** A tick of the timer, and what the exchange would answer. */
  datatype Tick = Tick(now: nat, result: int)

  function Ticks<T>(q: Queue<T>, ticks: seq<Tick>): Queue<T> {
    if ticks == [] then
      q
    else
      var last := ticks[|ticks| - 1];
      OnTimer(Ticks(q, ticks[..|ticks| - 1]), last.now, last.result)
  }

  function Refusals(ticks: seq<Tick>): nat {
    if ticks == [] then
      0
    else
      Refusals(ticks[..|ticks| - 1]) + if ticks[|ticks| - 1].result == TOO_FAST then 1 else 0
  }

  /** The clock before tick i. */
  function Before(start: nat, ticks: seq<Tick>, i: nat): nat
    requires i <= |ticks|
  {
    if i == 0 then start else ticks[i - 1].now
  }

  /** Ticks no more than gap apart, from start on. */
  predicate Regular(start: nat, gap: nat, ticks: seq<Tick>) {
    forall i :: 0 <= i < |ticks| ==> Before(start, ticks, i) <= ticks[i].now <= Before(start, ticks, i) + gap
  }

  function Latest(start: nat, ticks: seq<Tick>): nat {
    if ticks == [] then start else ticks[|ticks| - 1].now
  }

  /** All waiting commands are due by `bound`. */
  predicate DueBy<T>(q: Queue<T>, bound: nat) {
    forall i :: 0 <= i < |q.cmds| ==> q.cmds[i].due <= bound
  }

  /** When the queue is empty at the latest, with r refusals to come. */
  function Deadline(bound: nat, waiting: nat, r: nat, gap: nat): nat {
    bound + waiting * gap + r * (RETRY + gap)
  }

  lemma DeadlineSteps(bound: nat, waiting: nat, r: nat, gap: nat)
    ensures waiting > 0 ==> Deadline(bound + gap, waiting - 1, r, gap) == Deadline(bound, waiting, r, gap)
    ensures r > 0 ==> Deadline(bound + gap + RETRY, waiting, r - 1, gap) == Deadline(bound, waiting, r, gap)
    ensures r > 0 ==> Deadline(bound, waiting, r - 1, gap) <= Deadline(bound, waiting, r, gap)
    ensures bound <= Deadline(bound, waiting, r, gap)
    ensures waiting > 0 && gap > 0 ==> bound < Deadline(bound, waiting, r, gap)
  {
    assert waiting > 0 ==> waiting * gap == (waiting - 1) * gap + gap;
    assert waiting > 0 ==> (waiting - 1) * gap >= 0;
    assert r > 0 ==> r * (RETRY + gap) == (r - 1) * (RETRY + gap) + (RETRY + gap);
  }

  function Refused(tick: Tick): nat {
    if tick.result == TOO_FAST then 1 else 0
  }

  /** One tick never moves the deadline. */
  lemma TickKeepsDeadline<T>(q: Queue<T>, bound: nat, tick: Tick, r: nat, gap: nat) returns (bound': nat)
    requires q.cmds != [] ==> DueBy(q, bound) && tick.now <= bound + gap && bound < WORD
    requires tick.now < WORD && r >= Refused(tick)
    ensures var q' := OnTimer(q, tick.now, tick.result);
            q'.cmds != [] ==>
              && q.cmds != [] && DueBy(q', bound') && tick.now <= bound'
              && Deadline(bound', |q'.cmds|, r - Refused(tick), gap) <= Deadline(bound, |q.cmds|, r, gap)
  {
    hide Deadline;
    DeadlineSteps(bound, |q.cmds|, r, gap);
    if q.cmds == [] || !q.cmds[0].Ready(tick.now) {
      bound' := bound;
    } else if tick.result == TOO_FAST {
      bound' := bound + gap + RETRY;
    } else {
      bound' := bound + gap;
    }
  }

  lemma RegularFront(start: nat, gap: nat, ticks: seq<Tick>)
    requires ticks != [] && Regular(start, gap, ticks)
    ensures var front, last := ticks[..|ticks| - 1], ticks[|ticks| - 1];
            Regular(start, gap, front) && Latest(start, front) <= last.now <= Latest(start, front) + gap
  {
    var front := ticks[..|ticks| - 1];
    assert Latest(start, front) == Before(start, ticks, |ticks| - 1);
    forall i | 0 <= i < |front| ensures Before(start, front, i) <= front[i].now <= Before(start, front, i) + gap {
      assert Before(start, front, i) == Before(start, ticks, i);
    }
  }

  lemma LatestOf(start: nat, ticks: seq<Tick>)
    ensures Latest(start, ticks) == if ticks == [] then start else ticks[|ticks| - 1].now
  {
  }

  lemma {:induction false} TicksKeepDeadline<T>(q: Queue<T>, start: nat, bound: nat, ticks: seq<Tick>, r: nat, gap: nat)
    returns (bound': nat)
    requires DueBy(q, bound) && start <= bound && Regular(start, gap, ticks)
    requires Latest(start, ticks) < WORD && Deadline(bound, |q.cmds|, r, gap) < WORD
    requires r >= Refusals(ticks)
    ensures var q' := Ticks(q, ticks);
            q'.cmds != [] ==>
              && DueBy(q', bound') && Latest(start, ticks) <= bound'
              && Deadline(bound', |q'.cmds|, r - Refusals(ticks), gap) <= Deadline(bound, |q.cmds|, r, gap)
  {
    hide Deadline, OnTimer, DueBy, Regular, Latest;
    LatestOf(start, ticks);
    if ticks == [] {
      bound' := bound;
    } else {
      var n := |ticks|;
      var front, last := ticks[..n - 1], ticks[n - 1];
      RegularFront(start, gap, ticks);
      var middle := TicksKeepDeadline(q, start, bound, front, r, gap);
      var q1 := Ticks(q, front);
      DeadlineSteps(middle, |q1.cmds|, r - Refusals(front), gap);
      bound' := TickKeepsDeadline(q1, middle, last, r - Refusals(front), gap);
    }
  }

  /** The queue drains: with r refusals, ticks no more than gap apart, and no clock wrap, it is
      empty once the deadline has passed. */
  lemma QueueDrains<T>(q: Queue<T>, start: nat, bound: nat, ticks: seq<Tick>, gap: nat)
    requires DueBy(q, bound) && start <= bound && Regular(start, gap, ticks) && gap > 0
    requires Deadline(bound, |q.cmds|, Refusals(ticks), gap) <= Latest(start, ticks) < WORD
    ensures Ticks(q, ticks).cmds == []
  {
    hide Deadline, DueBy, Regular, Ticks;
    var r := Refusals(ticks);
    var bound' := TicksKeepDeadline(q, start, bound, ticks, r, gap);
    DeadlineSteps(bound', |Ticks(q, ticks).cmds|, r - Refusals(ticks), gap);
  }

  /** Ticks give no command, and what they take from the queue was called. */
  lemma {:induction false} TicksOnlyConsume<T>(q: Queue<T>, ticks: seq<Tick>)
    requires Inv(q)
    ensures var r := Ticks(q, ticks);
            && Inv(r) && r.given == q.given && r.entered == q.entered && q.left <= r.left
            && forall i :: |q.left| <= i < |r.left| ==> r.left[i].1.Consumed?
  {
    hide Inv, Regular;
    if ticks != [] {
      var front, last := ticks[..|ticks| - 1], ticks[|ticks| - 1];
      TicksOnlyConsume(q, front);
      OnTimerKeepsInv(Ticks(q, front), last.now, last.result);
    }
  }

  /** So by the deadline every waiting command has been called and answered other than -3. */
  lemma WaitingGetsCalled<T>(q: Queue<T>, start: nat, bound: nat, ticks: seq<Tick>, gap: nat, i: nat)
    returns (result: int)
    requires Inv(q) && i < |q.cmds|
    requires DueBy(q, bound) && start <= bound && Regular(start, gap, ticks) && gap > 0
    requires Deadline(bound, |q.cmds|, Refusals(ticks), gap) <= Latest(start, ticks) < WORD
    ensures var r := Ticks(q, ticks);
            && Is(r, q.cmds[i].serial, Gone(Consumed(result))) && result != TOO_FAST
            && Answers(r.attempts, q.cmds[i].serial, true) != []
            && Answers(r.attempts, q.cmds[i].serial, true)[|Answers(r.attempts, q.cmds[i].serial, true)| - 1] == result
  {
    hide Deadline, DueBy, Regular, Ticks, Orderly, Timed, Answers;
    var r := Ticks(q, ticks);
    QueueDrains(q, start, bound, ticks, gap);
    TicksOnlyConsume(q, ticks);
    var k := |q.left| + i;
    assert q.entered[k] == Serials(q.cmds)[i];
    assert r.entered[k] == Leavers(r.left)[k];
    result := r.left[k].1.result;
    assert r.left[k] == (q.cmds[i].serial, Consumed(result));
  }
}
