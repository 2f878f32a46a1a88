/** What each event does to the sessions of the CTP gateway, told by what changes: the commands it
    gives to run, the sessions it ends and makes, and the login flags. */
module CtpEvents {
  import opened CmdQueue
  import opened CtpSession

  // ---------------------------------------------------------------- commands

  function By(kind: Kind, owner: Session, now: nat, delayTick: nat): Given<Call>
    requires owner.Live?
  {
    Given(Call(kind, owner.id), now, delayTick)
  }

  /** The commands an event gives: a login a second after a connect and a minute after a failed
      login; the instrument query once the second side has logged in; a logout on stop; whatever the
      user asks for; subscription and settlement for the contracts. */
  function Asked(s: State, e: Event, now: nat): seq<Given<Call>> {
    match e
    case OnMd(MdConnected) => if s.md.Live? && s.autoLoginMd then [By(MdLogin, s.md, now, 1000)] else []
    case OnMd(MdLoginFail) => if s.md.Live? && s.autoLoginMd then [By(MdLogin, s.md, now, 60000)] else []
    case OnMd(MdLogined) =>
      if s.md.Live? && s.tdLogined && s.td.Live? then [By(QueryInstrument, s.td, now, 1000)] else []
    case OnTd(TdConnected) => if s.td.Live? && s.autoLoginTd then [By(TdLogin, s.td, now, 1000)] else []
    case OnTd(TdLoginFail) => if s.td.Live? && s.autoLoginTd then [By(TdLogin, s.td, now, 60000)] else []
    case OnTd(TdLogined) => if s.td.Live? && s.mdLogined then [By(QueryInstrument, s.td, now, 1000)] else []
    case Stop => if s.td.Live? && s.tdLogined then [By(TdLogout, s.td, now, 0)] else []
    case User(kind) => if s.td.Live? then [By(kind, s.td, now, 0)] else []
    case GotContracts =>
      if s.md.Null? then []
      else if s.td.Null? then [By(MdSubscribe, s.md, now, 0)]
      else [By(MdSubscribe, s.md, now, 0), By(ConfirmSettlement, s.td, now, 0)]
    case _ => []
  }

  /** What the queue's operations give. */
  lemma QueueGives()
    ensures forall q: Queue<Call>, what, delayTick, now, result ::
              RunCmd(q, what, delayTick, now, result).given == q.given + [Given(what, now, delayTick)]
    ensures forall q: Queue<Call> :: ResetCmds(q).given == q.given
    ensures forall q: Queue<Call>, now, result :: CmdQueue.OnTimer(q, now, result).given == q.given
  {
  }

  lemma MdStatusGives(s: State, status: MdStatus, env: Env)
    requires SessionsSafe(s)
    ensures OnMdStatus(s, status, env).queue.given == s.queue.given + Asked(s, OnMd(status), env.now)
  {
    hide RunCmd, ResetCmds;
    QueueGives();
  }

  lemma TdStatusGives(s: State, status: TdStatus, env: Env)
    requires SessionsSafe(s)
    ensures OnTdStatus(s, status, env).queue.given == s.queue.given + Asked(s, OnTd(status), env.now)
  {
    hide RunCmd, ResetCmds;
    QueueGives();
  }

  /** Each event gives these commands and no other. */
  lemma StepGives(s: State, e: Event, env: Env)
    requires CtpSession.Inv(s) && s.health == Up
    ensures Step(s, e, env).queue.given == s.queue.given + Asked(s, e, env.now)
  {
    hide CtpSession.Inv, RunCmd, ResetCmds, CmdQueue.OnTimer, OnMdStatus, OnTdStatus;
    InvSessions(s);
    QueueGives();
    match e
    case OnMd(status) => MdStatusGives(s, status, env);
    case OnTd(status) => TdStatusGives(s, status, env);
    case _ =>
  }

  /** The commands of a run, in order. */
  function AskedAlong(events: seq<(Event, Env)>): seq<Given<Call>> {
    if events == [] then
      []
    else
      var front, last := events[..|events| - 1], events[|events| - 1];
      var s := Runs(Initial(), front);
      AskedAlong(front) + if s.health == Up then Asked(s, last.0, last.1.now) else []
  }

  /** Over any run the commands given are exactly those its events ask for. */
  lemma {:induction false} GivenOverRuns(events: seq<(Event, Env)>)
    requires forall i :: 0 <= i < |events| ==> Sensible(events[i].0)
    ensures Runs(Initial(), events).queue.given == AskedAlong(events)
  {
    hide CtpSession.Inv, Step, Sensible, Asked;
    if events != [] {
      var front, last := events[..|events| - 1], events[|events| - 1];
      var s := Runs(Initial(), front);
      GivenOverRuns(front);
      SafeOverRuns(front);
      if s.health == Up {
        StepGives(s, last.0, last.1);
      } else {
        StepEnded(s, last.0, last.1);
      }
    }
  }

  /** What happened to a user's command: it was called at once, and if refused for coming too fast
      waits behind the others for the next second. */
  lemma UserCommandTried(s: State, kind: Kind, env: Env)
    requires CtpSession.Inv(s) && s.health == Up && IsUserCommand(kind) && s.td.Live?
    ensures var r, n := Step(s, User(kind), env), |s.queue.given|;
            && |r.queue.given| == n + 1 && r.queue.given[n] == By(kind, s.td, env.now, 0)
            && Answers(r.queue.attempts, n, false) == [env.first]
            && r.queue.cmds == s.queue.cmds
                 + (if env.first == TOO_FAST || env.first == TOO_MANY
                    then [Cmd(n, Call(kind, s.td.id), env.now + 1000)] else [])
            && r == s.(queue := r.queue)
  {
    hide Answers;
    var n := |s.queue.given|;
    NeverCalled(s.queue.attempts, n, false);
    AnswersAppend(s.queue.attempts, Attempt(n, s.queue.reqId + 1, env.now, false, env.now, env.first), n, false);
  }

  /** A login that failed comes again: while auto-login is on, a new one waits behind the others,
      due in a minute. */
  lemma FailedLoginWaits(s: State, market: bool, env: Env)
    requires CtpSession.Inv(s) && s.health == Up
    requires if market then s.md.Live? && s.autoLoginMd else s.td.Live? && s.autoLoginTd
    ensures var r := Step(s, if market then OnMd(MdLoginFail) else OnTd(TdLoginFail), env);
            var what := if market then Call(MdLogin, s.md.id) else Call(TdLogin, s.td.id);
            && r.queue.cmds == s.queue.cmds + [Cmd(|s.queue.given|, what, env.now + 60000)]
            && r == s.(queue := r.queue) && r.queue.attempts == s.queue.attempts
  {
    hide CtpSession.Inv;
  }

  /** And without: the session ends. */
  lemma FailedLoginEnds(s: State, env: Env)
    requires CtpSession.Inv(s) && s.health == Up
    ensures s.md.Live? && !s.autoLoginMd ==> Step(s, OnMd(MdLoginFail), env).md.Null?
    ensures s.td.Live? && !s.autoLoginTd ==>
              Step(s, OnTd(TdLoginFail), env).td.Null? && Step(s, OnTd(TdLoginFail), env).queue.cmds == []
  {
    hide CtpSession.Inv;
    InvSessions(s);
  }

  // ---------------------------------------------------------------- sessions

  /** Events that end the trading session. */
  predicate EndsTd(s: State, e: Event) {
    && s.td.Live?
    && match e
       case OnTd(TdStopped) => true
       case OnTd(TdLogouted) => true
       case OnTd(TdLogoutFail) => true
       case OnTd(TdConnected) => !s.autoLoginTd
       case OnTd(TdDisconnected) => !s.autoLoginTd
       case OnTd(TdLoginFail) => !s.autoLoginTd
       case Stop => !s.tdLogined
       case _ => false
  }

  /** A start makes both sessions if there is none and the profile is complete. */
  predicate Starts(s: State, e: Event, env: Env) {
    e == Start && s.md.Null? && s.td.Null? && env.mdParams && env.tdParams
  }

  /** A market-data login makes a missing trading session. */
  predicate Remakes(s: State, e: Event, env: Env) {
    e == OnMd(MdLogined) && s.md.Live? && s.td.Null? && env.tdParams
  }

  /** The market-data session, its login flag and its auto-login after an event. */
  predicate MdChanges(s: State, e: Event, env: Env, r: State) {
    && r.md == (if EndsMd(s, e) then Null else if Starts(s, e, env) then Live(s.made, true) else s.md)
    && r.autoLoginMd == (Starts(s, e, env) || (s.autoLoginMd && !(e == Stop && s.md.Live?)))
    && r.mdLogined == (s.md.Live? && !EndsMd(s, e) &&
         (e == OnMd(MdLogined) || (s.mdLogined && e != OnMd(MdConnected) && e != OnMd(MdDisconnected))))
  }

  /** And the trading session's. */
  predicate TdChanges(s: State, e: Event, env: Env, r: State) {
    && r.td == (if EndsTd(s, e) then Null
                else if Starts(s, e, env) then Live(s.made + 1, true)
                else if Remakes(s, e, env) then Live(s.made, true)
                else s.td)
    && r.autoLoginTd == (Starts(s, e, env) || Remakes(s, e, env) || (s.autoLoginTd && !(e == Stop && s.td.Live?)))
    && r.tdLogined == (s.td.Live? && !EndsTd(s, e) &&
         (e == OnTd(TdLogined) || (s.tdLogined && e != OnTd(TdConnected) && e != OnTd(TdDisconnected))))
  }

  lemma MdStatusChanges(s: State, status: MdStatus, env: Env)
    requires SessionsSafe(s) && s.health == Up
    ensures var r := OnMdStatus(s, status, env); MdChanges(s, OnMd(status), env, r) && TdChanges(s, OnMd(status), env, r)
  {
    hide RunCmd, ResetCmds;
  }

  lemma TdStatusChanges(s: State, status: TdStatus, env: Env)
    requires SessionsSafe(s) && s.health == Up
    ensures var r := OnTdStatus(s, status, env); MdChanges(s, OnTd(status), env, r) && TdChanges(s, OnTd(status), env, r)
  {
    hide RunCmd, ResetCmds;
  }

  lemma StopChanges(s: State, env: Env)
    requires SessionsSafe(s) && s.health == Up
    ensures MdChanges(s, Stop, env, OnStop(s, env)) && TdChanges(s, Stop, env, OnStop(s, env))
  {
    hide RunCmd, ResetCmds;
  }

  /** A session is made, ended or kept by exactly these events; one made is new and started, with
      auto-login on, which only a stop turns off. A side counts as logged in from its login to its
      next connect or disconnect or its end. */
  lemma SessionsChange(s: State, e: Event, env: Env)
    requires CtpSession.Inv(s) && s.health == Up && Sensible(e)
    ensures MdChanges(s, e, env, Step(s, e, env)) && TdChanges(s, e, env, Step(s, e, env))
  {
    hide CtpSession.Inv, RunCmd, ResetCmds, CmdQueue.OnTimer, OnMdStatus, OnTdStatus, OnStop;
    InvSessions(s);
    match e
    case OnMd(status) => MdStatusChanges(s, status, env);
    case OnTd(status) => TdStatusChanges(s, status, env);
    case Stop => StopChanges(s, env);
    case _ =>
  }
}
