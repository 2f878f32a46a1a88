/** The session logic of the CTP gateway as a function of its events, and what every run keeps. */
module CtpSession {
  import opened CmdQueue

  datatype Kind =
    | MdLogin | MdSubscribe
    | TdLogin | TdLogout | QueryInstrument | ConfirmSettlement
    | QueryAccount | QueryPosition | QueryOrders | SendOrder | CancelOrder

  /** A command acts on the session object that made it. */
  datatype Call = Call(kind: Kind, owner: nat)

  predicate OfMarketData(k: Kind) {
    k == MdLogin || k == MdSubscribe
  }

  /** A session object, unless deleted; started while it holds its API. */
  datatype Session = Null | Live(id: nat, started: bool)

  datatype MdStatus = MdConnected | MdDisconnected | MdLogined | MdLoginFail | MdStopped

  datatype TdStatus = TdConnected | TdDisconnected | TdLogined | TdLoginFail | TdLogouted | TdLogoutFail | TdStopped

  /** Up; ended on purpose by a fatal check; or having used a deleted or absent object. */
  datatype Health = Up | Fatal | Dangling

  datatype State = State(
    md: Session, td: Session, mdLogined: bool, tdLogined: bool, autoLoginMd: bool, autoLoginTd: bool,
    queue: Queue<Call>, made: nat, health: Health)

  /** What the surroundings contribute to one event: the clock, the API's answers to the calls
      made at once, and whether the profile is complete for each side. */
  datatype Env = Env(now: nat, first: int, second: int, mdParams: bool, tdParams: bool)

  datatype Event =
    | OnMd(mdStatus: MdStatus) | OnTd(tdStatus: TdStatus)
    | Start | Stop | User(kind: Kind) | GotContracts | Timer

  function Initial(): State {
    State(Null, Null, false, false, false, false, CmdQueue.Empty(), 0, Up)
  }

  function Run(s: State, kind: Kind, owner: Session, delayTick: nat, now: nat, result: int): State
    requires owner.Live?
  {
    s.(queue := RunCmd(s.queue, Call(kind, owner.id), delayTick, now, result))
  }

  // ---------------------------------------------------------------- stopping

  /** The handler of MDSM_STOPPED. The queue is left alone. */
  function MdGone(s: State): State {
    s.(mdLogined := false, md := Null)
  }

  /** The handler of TDSM_STOPPED drops every queued command, of either side. */
  function TdGone(s: State): State {
    s.(queue := ResetCmds(s.queue), tdLogined := false, td := Null)
  }

  /** stop() of a session checks that it is started, and its own STOPPED is handled before it
      returns. */
  function StopMd(s: State): State
    requires s.md.Live?
  {
    if !s.md.started then s.(health := Fatal) else MdGone(s)
  }

  function StopTd(s: State): State
    requires s.td.Live?
  {
    if !s.td.started then s.(health := Fatal) else TdGone(s)
  }

  // ---------------------------------------------------------------- status events

  function OnMdStatus(s: State, status: MdStatus, env: Env): State {
    if s.md.Null? then
      s
    else
      match status
      case MdConnected =>
        var t := s.(mdLogined := false);
        if s.autoLoginMd then Run(t, MdLogin, s.md, 1000, env.now, env.first) else StopMd(t)
      case MdDisconnected =>
        var t := s.(mdLogined := false);
        if s.autoLoginMd then t else StopMd(t)
      case MdLogined => TryStartSubscrible(s.(mdLogined := true), env)
      case MdLoginFail =>
        if s.autoLoginMd then Run(s, MdLogin, s.md, 60 * 1000, env.now, env.first) else StopMd(s)
      case MdStopped => MdGone(s)
  }

  function OnTdStatus(s: State, status: TdStatus, env: Env): State {
    if s.td.Null? then
      s
    else
      match status
      case TdConnected =>
        var t := s.(tdLogined := false);
        if s.autoLoginTd then Run(t, TdLogin, s.td, 1000, env.now, env.first) else StopTd(t)
      case TdDisconnected =>
        var t := s.(queue := ResetCmds(s.queue), tdLogined := false);
        if s.autoLoginTd then t else StopTd(t)
      case TdLogined => TryStartSubscrible(s.(tdLogined := true), env)
      case TdLoginFail =>
        if s.autoLoginTd then Run(s, TdLogin, s.td, 60 * 1000, env.now, env.first) else StopTd(s)
      case TdLogouted => StopTd(s.(tdLogined := false))
      case TdLogoutFail => StopTd(s.(tdLogined := false))
      case TdStopped => TdGone(s)
  }

  /** A trading session that has gone away is made anew. */
  function TryStartSubscrible(s: State, env: Env): State {
    if s.mdLogined && s.tdLogined && s.td.Null? then
      s.(health := Dangling)
    else
      var t := if s.mdLogined && s.tdLogined
               then Run(s, QueryInstrument, s.td, 1000, env.now, env.first)
               else s;
      if t.td.Live? then
        t
      else if !env.tdParams then
        t.(made := t.made + 1, health := Fatal)
      else
        t.(td := Live(t.made, true), made := t.made + 1, autoLoginTd := true)
  }

  // ---------------------------------------------------------------- commands of the user

  function OnStart(s: State, env: Env): State {
    if s.md.Live? || s.td.Live? then
      s
    else if !env.mdParams then
      s.(made := s.made + 1)
    else if !env.tdParams then
      s.(made := s.made + 2)
    else
      s.(md := Live(s.made, true), td := Live(s.made + 1, true), made := s.made + 2,
         autoLoginMd := true, autoLoginTd := true)
  }

  function OnStop(s: State, env: Env): State {
    var t := if s.md.Live? then StopMd(s.(autoLoginMd := false)) else s;
    if t.health != Up || t.td.Null? then
      t
    else
      var u := t.(autoLoginTd := false);
      if u.tdLogined then Run(u, TdLogout, u.td, 0, env.now, env.first) else StopTd(u)
  }

  function OnUser(s: State, kind: Kind, env: Env): State {
    if s.td.Null? then s else Run(s, kind, s.td, 0, env.now, env.first)
  }

  /** Both sessions are used without a check. */
  function OnGotContracts(s: State, env: Env): State {
    if s.md.Null? then
      s.(health := Dangling)
    else
      var t := Run(s, MdSubscribe, s.md, 0, env.now, env.first);
      if s.td.Null? then t.(health := Dangling) else Run(t, ConfirmSettlement, s.td, 0, env.now, env.second)
  }

  /** What carrying out a call needs: the object that made it, and for the instrument query,
      which resets the data of both sides, both sessions. */
  predicate Usable(s: State, c: Call) {
    if OfMarketData(c.kind) then
      s.md.Live? && s.md.id == c.owner
    else
      s.td.Live? && s.td.id == c.owner && (c.kind == QueryInstrument ==> s.md.Live?)
  }

  function OnRunCmdInterval(s: State, env: Env): State {
    if s.queue.cmds == [] || !s.queue.cmds[0].Ready(env.now) then
      s
    else if !Usable(s, s.queue.cmds[0].what) then
      s.(health := Dangling)
    else
      s.(queue := OnTimer(s.queue, env.now, env.first))
  }

  predicate IsUserCommand(k: Kind) {
    k == QueryAccount || k == QueryPosition || k == QueryOrders || k == SendOrder || k == CancelOrder
  }

  predicate Sensible(e: Event) {
    e.User? ==> IsUserCommand(e.kind)
  }

  /** Once ended, or having used what is not there, nothing more is said. */
  function Step(s: State, e: Event, env: Env): State {
    if s.health != Up then
      s
    else
      match e
      case OnMd(status) => OnMdStatus(s, status, env)
      case OnTd(status) => OnTdStatus(s, status, env)
      case Start => OnStart(s, env)
      case Stop => OnStop(s, env)
      case User(kind) => OnUser(s, kind, env)
      case GotContracts => OnGotContracts(s, env)
      case Timer => OnRunCmdInterval(s, env)
  }

  function Runs(s: State, events: seq<(Event, Env)>): State {
    if events == [] then
      s
    else
      var (e, env) := events[|events| - 1];
      Step(Runs(s, events[..|events| - 1]), e, env)
  }

  // ---------------------------------------------------------------- what every run keeps

  predicate SessionsSafe(s: State) {
    && (s.mdLogined ==> s.md.Live?)
    && (s.tdLogined ==> s.td.Live?)
    && (s.md.Live? ==> s.md.started && s.md.id < s.made)
    && (s.td.Live? ==> s.td.started && s.td.id < s.made)
    && (s.md.Live? && s.td.Live? ==> s.md.id != s.td.id)
  }

  predicate CallSafe(s: State, c: Call) {
    && c.owner < s.made
    && (!OfMarketData(c.kind) ==> s.td.Live? && s.td.id == c.owner)
  }

  /** Every queued trading command belongs to the live trading session. */
  predicate QueueSafe(s: State) {
    forall i :: 0 <= i < |s.queue.cmds| ==> CallSafe(s, s.queue.cmds[i].what)
  }

  ghost predicate Inv(s: State) {
    SessionsSafe(s) && QueueSafe(s) && CmdQueue.Inv(s.queue)
  }

  lemma QueueSafeAppend(s: State, t: State, c: Cmd<Call>)
    requires QueueSafe(s) && CallSafe(t, c.what)
    requires t.td == s.td && t.made == s.made && (t.queue.cmds == s.queue.cmds || t.queue.cmds == s.queue.cmds + [c])
    ensures QueueSafe(t)
  {
  }

  /** Giving the queue a command of a live session. */
  lemma RunKeepsInv(s: State, kind: Kind, owner: Session, delayTick: nat, now: nat, result: int)
    requires Inv(s) && owner.Live? && owner == if OfMarketData(kind) then s.md else s.td
    ensures Inv(Run(s, kind, owner, delayTick, now, result))
  {
    hide CmdQueue.Inv, QueueSafe;
    var call := Call(kind, owner.id);
    RunCmdKeepsInv(s.queue, call, delayTick, now, result);
    var due := if delayTick == 0 then now + RETRY else now + delayTick;
    QueueSafeAppend(s, Run(s, kind, owner, delayTick, now, result), Cmd(|s.queue.given|, call, due));
  }

  lemma MdGoneKeepsInv(s: State)
    requires Inv(s)
    ensures Inv(MdGone(s))
  {
    hide CmdQueue.Inv;
  }

  lemma TdGoneKeepsInv(s: State)
    requires Inv(s)
    ensures Inv(TdGone(s)) && TdGone(s).queue.cmds == []
  {
    hide CmdQueue.Inv;
    ResetCmdsKeepsInv(s.queue);
  }

  lemma TryKeepsInv(s: State, env: Env)
    requires Inv(s)
    ensures Inv(TryStartSubscrible(s, env))
    ensures TryStartSubscrible(s, env).health
         == if s.td.Null? && !env.tdParams then Fatal else s.health
  {
    hide CmdQueue.Inv, Run;
    if s.mdLogined && s.tdLogined {
      RunKeepsInv(s, QueryInstrument, s.td, 1000, env.now, env.first);
      RunFrame(s, QueryInstrument, s.td, 1000, env.now, env.first);
    }
  }

  lemma RunFrame(s: State, kind: Kind, owner: Session, delayTick: nat, now: nat, result: int)
    requires owner.Live?
    ensures Run(s, kind, owner, delayTick, now, result)
         == s.(queue := Run(s, kind, owner, delayTick, now, result).queue)
  {
  }

  lemma OnMdKeepsInv(s: State, status: MdStatus, env: Env)
    requires Inv(s) && s.health == Up
    ensures Inv(OnMdStatus(s, status, env))
    ensures OnMdStatus(s, status, env).health
         == if status == MdLogined && s.md.Live? && s.td.Null? && !env.tdParams then Fatal else Up
  {
    hide CmdQueue.Inv, QueueSafe, Run, MdGone, TryStartSubscrible;
    if s.md.Live? {
      var t := s.(mdLogined := false);
      SameQueueSafe(s, t);
      MdGoneKeepsInv(t);
      MdGoneKeepsInv(s);
      MdGoneHealth(t);
      MdGoneHealth(s);
      RunKeepsInv(t, MdLogin, s.md, 1000, env.now, env.first);
      RunFrame(t, MdLogin, s.md, 1000, env.now, env.first);
      RunKeepsInv(s, MdLogin, s.md, 60 * 1000, env.now, env.first);
      RunFrame(s, MdLogin, s.md, 60 * 1000, env.now, env.first);
      var u := s.(mdLogined := true);
      SameQueueSafe(s, u);
      TryKeepsInv(u, env);
    }
  }

  lemma OnTdKeepsInv(s: State, status: TdStatus, env: Env)
    requires Inv(s) && s.health == Up
    ensures Inv(OnTdStatus(s, status, env)) && OnTdStatus(s, status, env).health == Up
  {
    hide CmdQueue.Inv, QueueSafe, Run, TdGone, TryStartSubscrible;
    if s.td.Live? {
      var t := s.(tdLogined := false);
      SameQueueSafe(s, t);
      TdGoneKeepsInv(t);
      TdGoneKeepsInv(s);
      TdGoneHealth(t);
      TdGoneHealth(s);
      var r := s.(queue := ResetCmds(s.queue), tdLogined := false);
      ResetKeepsInv(s, r);
      TdGoneKeepsInv(r);
      TdGoneHealth(r);
      RunKeepsInv(t, TdLogin, s.td, 1000, env.now, env.first);
      RunFrame(t, TdLogin, s.td, 1000, env.now, env.first);
      RunKeepsInv(s, TdLogin, s.td, 60 * 1000, env.now, env.first);
      RunFrame(s, TdLogin, s.td, 60 * 1000, env.now, env.first);
      var u := s.(tdLogined := true);
      SameQueueSafe(s, u);
      TryKeepsInv(u, env);
    }
  }

  lemma SameQueueSafe(s: State, t: State)
    requires QueueSafe(s) && t.queue == s.queue && t.td == s.td && t.made >= s.made
    ensures QueueSafe(t)
  {
  }

  lemma MdGoneHealth(s: State)
    ensures MdGone(s).health == s.health
  {
  }

  lemma TdGoneHealth(s: State)
    ensures TdGone(s).health == s.health
  {
  }

  lemma ResetKeepsInv(s: State, r: State)
    requires Inv(s) && r == s.(queue := ResetCmds(s.queue), tdLogined := false)
    ensures Inv(r)
  {
    hide CmdQueue.Inv;
    ResetCmdsKeepsInv(s.queue);
  }

  lemma OnStartKeepsInv(s: State, env: Env)
    requires Inv(s)
    ensures Inv(OnStart(s, env)) && OnStart(s, env).health == s.health
  {
    hide CmdQueue.Inv;
  }

  lemma OnStopKeepsInv(s: State, env: Env)
    requires Inv(s) && s.health == Up
    ensures Inv(OnStop(s, env)) && OnStop(s, env).health == Up
  {
    hide CmdQueue.Inv, QueueSafe, Run, MdGone, TdGone;
    var a := s.(autoLoginMd := false);
    SameQueueSafe(s, a);
    MdGoneKeepsInv(a);
    MdGoneHealth(a);
    MdGoneTd(a);
    var t := if s.md.Live? then MdGone(a) else s;
    if t.td.Live? {
      var u := t.(autoLoginTd := false);
      SameQueueSafe(t, u);
      TdGoneKeepsInv(u);
      TdGoneHealth(u);
      RunKeepsInv(u, TdLogout, u.td, 0, env.now, env.first);
      RunFrame(u, TdLogout, u.td, 0, env.now, env.first);
    }
  }

  lemma MdGoneTd(s: State)
    ensures MdGone(s).td == s.td && MdGone(s).tdLogined == s.tdLogined
  {
  }

  lemma OnUserKeepsInv(s: State, kind: Kind, env: Env)
    requires Inv(s) && IsUserCommand(kind)
    ensures Inv(OnUser(s, kind, env)) && OnUser(s, kind, env).health == s.health
  {
    hide CmdQueue.Inv, QueueSafe, Run;
    if s.td.Live? {
      RunKeepsInv(s, kind, s.td, 0, env.now, env.first);
      RunFrame(s, kind, s.td, 0, env.now, env.first);
    }
  }

  lemma OnGotContractsKeepsInv(s: State, env: Env)
    requires Inv(s) && s.health == Up
    ensures Inv(OnGotContracts(s, env))
    ensures OnGotContracts(s, env).health == if s.md.Live? && s.td.Live? then Up else Dangling
  {
    hide CmdQueue.Inv, QueueSafe, Run;
    if s.md.Live? {
      RunKeepsInv(s, MdSubscribe, s.md, 0, env.now, env.first);
      RunFrame(s, MdSubscribe, s.md, 0, env.now, env.first);
      var t := Run(s, MdSubscribe, s.md, 0, env.now, env.first);
      if s.td.Live? {
        RunKeepsInv(t, ConfirmSettlement, t.td, 0, env.now, env.second);
        RunFrame(t, ConfirmSettlement, t.td, 0, env.now, env.second);
      } else {
        SameQueueSafe(t, t.(health := Dangling));
      }
    } else {
      SameQueueSafe(s, s.(health := Dangling));
    }
  }

  /** A call the timer is about to make on something that is no longer there. */
  predicate Stale(s: State, c: Call) {
    if OfMarketData(c.kind) then !(s.md.Live? && s.md.id == c.owner) else c.kind == QueryInstrument && s.md.Null?
  }

  lemma StaleIsUnusable(s: State, c: Call)
    requires CallSafe(s, c)
    ensures Stale(s, c) <==> !Usable(s, c)
  {
  }

  lemma OnTimerKeepsInv(s: State, env: Env)
    requires Inv(s) && s.health == Up
    ensures Inv(OnRunCmdInterval(s, env))
    ensures OnRunCmdInterval(s, env).health
         == if s.queue.cmds != [] && s.queue.cmds[0].Ready(env.now) && Stale(s, s.queue.cmds[0].what)
            then Dangling else Up
  {
    hide CmdQueue.Inv;
    CmdQueue.OnTimerKeepsInv(s.queue, env.now, env.first);
    if s.queue.cmds != [] {
      StaleIsUnusable(s, s.queue.cmds[0].what);
    }
  }

  /** One event of any kind keeps the sessions and the queue safe; and exactly these end the
      program or use what is gone: a market-data login arriving when the trading session has to
      be remade from an incomplete profile, the contracts arriving without both sessions, and a
      due command whose market-data session has been stopped. */
  lemma StepKeepsInv(s: State, e: Event, env: Env)
    requires Inv(s) && s.health == Up && Sensible(e)
    ensures Inv(Step(s, e, env))
    ensures Step(s, e, env).health == Fatal <==>
              e == OnMd(MdLogined) && s.md.Live? && s.td.Null? && !env.tdParams
    ensures Step(s, e, env).health == Dangling <==>
              || (e.GotContracts? && !(s.md.Live? && s.td.Live?))
              || (e.Timer? && s.queue.cmds != [] && s.queue.cmds[0].Ready(env.now)
                  && Stale(s, s.queue.cmds[0].what))
  {
    hide Inv, OnMdStatus, OnTdStatus, OnStart, OnStop, OnUser, OnGotContracts, OnRunCmdInterval, Stale;
    match e
    case OnMd(status) => OnMdKeepsInv(s, status, env);
    case OnTd(status) => OnTdKeepsInv(s, status, env);
    case Start => OnStartKeepsInv(s, env);
    case Stop => OnStopKeepsInv(s, env);
    case User(kind) => OnUserKeepsInv(s, kind, env);
    case GotContracts => OnGotContractsKeepsInv(s, env);
    case Timer => OnTimerKeepsInv(s, env);
  }

  /** Any run: status events, stale ones included, commands, starts and stops in any order. */
  lemma {:induction false} SafeOverRuns(events: seq<(Event, Env)>)
    requires forall i :: 0 <= i < |events| ==> Sensible(events[i].0)
    ensures Inv(Runs(Initial(), events))
  {
    hide Inv, Step, Sensible;
    if events == [] {
      InitialSafe();
    } else {
      var front, last := events[..|events| - 1], events[|events| - 1];
      SafeOverRuns(front);
      var s := Runs(Initial(), front);
      if s.health == Up {
        StepKeepsInv(s, last.0, last.1);
      } else {
        StepEnded(s, last.0, last.1);
      }
    }
  }

  lemma InitialSafe()
    ensures Inv(Initial())
  {
  }

  lemma StepEnded(s: State, e: Event, env: Env)
    requires s.health != Up
    ensures Step(s, e, env) == s
  {
  }

  // ---------------------------------------------------------------- commands left behind

  predicate NeedsMd(c: Call) {
    OfMarketData(c.kind) || c.kind == QueryInstrument
  }

  predicate NoneStale(s: State) {
    forall i :: 0 <= i < |s.queue.cmds| ==> !Stale(s, s.queue.cmds[i].what)
  }

  /** Events that end the market-data session. */
  predicate EndsMd(s: State, e: Event) {
    && s.md.Live?
    && (|| e == Stop
        || e == OnMd(MdStopped)
        || (!s.autoLoginMd && (e == OnMd(MdConnected) || e == OnMd(MdDisconnected) || e == OnMd(MdLoginFail))))
  }

  /** A command waits that needs the market-data session. */
  predicate Waiting(s: State) {
    exists i :: 0 <= i < |s.queue.cmds| && NeedsMd(s.queue.cmds[i].what)
  }

  /** Such an event, coming while such a command waits, unless it is a stop that ends trading at
      once as well. */
  predicate Orphans(s: State, e: Event) {
    s.health == Up && EndsMd(s, e) && Waiting(s) && !(e == Stop && s.td.Live? && !s.tdLogined)
  }

  lemma NoneStaleRun(s: State, kind: Kind, owner: Session, delayTick: nat, now: nat, result: int)
    requires NoneStale(s) && owner.Live? && owner == (if OfMarketData(kind) then s.md else s.td)
    requires kind == QueryInstrument ==> s.md.Live?
    ensures NoneStale(Run(s, kind, owner, delayTick, now, result))
  {
  }

  lemma NoneStaleSame(s: State, t: State)
    requires NoneStale(s) && t.md == s.md && (t.queue == s.queue || t.queue.cmds == [])
    ensures NoneStale(t)
  {
  }

  lemma TryKeepsNoneStale(s: State, env: Env)
    requires SessionsSafe(s) && NoneStale(s)
    ensures NoneStale(TryStartSubscrible(s, env)) && TryStartSubscrible(s, env).md == s.md
  {
    hide NoneStale, Run;
    var both := s.mdLogined && s.tdLogined;
    if both {
      NoneStaleRun(s, QueryInstrument, s.td, 1000, env.now, env.first);
      RunFrame(s, QueryInstrument, s.td, 1000, env.now, env.first);
    }
    var t := if both then Run(s, QueryInstrument, s.td, 1000, env.now, env.first) else s;
    NoneStaleSame(t, TryStartSubscrible(s, env));
  }

  lemma OnMdKeepsNoneStale(s: State, status: MdStatus, env: Env)
    requires SessionsSafe(s) && NoneStale(s)
    ensures NoneStale(OnMdStatus(s, status, env)) || (s.md.Live? && OnMdStatus(s, status, env).md.Null?)
  {
    hide NoneStale, Run, TryStartSubscrible;
    if s.md.Live? {
      var t, u := s.(mdLogined := false), s.(mdLogined := true);
      NoneStaleSame(s, t);
      NoneStaleSame(s, u);
      NoneStaleRun(t, MdLogin, s.md, 1000, env.now, env.first);
      NoneStaleRun(s, MdLogin, s.md, 60 * 1000, env.now, env.first);
      TryKeepsNoneStale(u, env);
    }
  }

  lemma OnTdKeepsNoneStale(s: State, status: TdStatus, env: Env)
    requires SessionsSafe(s) && NoneStale(s)
    ensures NoneStale(OnTdStatus(s, status, env))
  {
    hide NoneStale, Run, TryStartSubscrible;
    if s.td.Live? {
      var t, u := s.(tdLogined := false), s.(tdLogined := true);
      var r := s.(queue := ResetCmds(s.queue), tdLogined := false);
      NoneStaleSame(s, t);
      NoneStaleSame(s, u);
      NoneStaleSame(s, r);
      NoneStaleSame(s, TdGone(s));
      NoneStaleSame(t, TdGone(t));
      NoneStaleSame(r, TdGone(r));
      NoneStaleRun(t, TdLogin, s.td, 1000, env.now, env.first);
      NoneStaleRun(s, TdLogin, s.td, 60 * 1000, env.now, env.first);
      TryKeepsNoneStale(u, env);
    }
  }

  lemma OnStartKeepsNoneStale(s: State, env: Env)
    requires Inv(s) && NoneStale(s)
    ensures NoneStale(OnStart(s, env))
  {
    hide CmdQueue.Inv;
    assert |s.queue.cmds| > 0 ==> CallSafe(s, s.queue.cmds[0].what) && !Stale(s, s.queue.cmds[0].what);
  }

  lemma OnStopKeepsNoneStale(s: State, env: Env)
    requires SessionsSafe(s) && NoneStale(s)
    ensures NoneStale(OnStop(s, env)) || (s.md.Live? && OnStop(s, env).md.Null?)
  {
    hide NoneStale, Run;
    if s.md.Null? && s.td.Live? {
      var u := s.(autoLoginTd := false);
      NoneStaleSame(s, u);
      NoneStaleSame(u, TdGone(u));
      NoneStaleRun(u, TdLogout, u.td, 0, env.now, env.first);
    } else if s.md.Live? {
      var u := MdGone(s.(autoLoginMd := false)).(autoLoginTd := false);
      if u.td.Live? {
        RunFrame(u, TdLogout, u.td, 0, env.now, env.first);
      }
    }
  }

  lemma OnGotContractsKeepsNoneStale(s: State, env: Env)
    requires SessionsSafe(s) && NoneStale(s)
    ensures NoneStale(OnGotContracts(s, env))
  {
    hide NoneStale, Run;
    NoneStaleSame(s, s.(health := Dangling));
    if s.md.Live? {
      var t := Run(s, MdSubscribe, s.md, 0, env.now, env.first);
      NoneStaleRun(s, MdSubscribe, s.md, 0, env.now, env.first);
      RunFrame(s, MdSubscribe, s.md, 0, env.now, env.first);
      NoneStaleSame(t, t.(health := Dangling));
      if s.td.Live? {
        NoneStaleRun(t, ConfirmSettlement, s.td, 0, env.now, env.second);
      }
    }
  }

  lemma StepKeepsNoneStale(s: State, e: Event, env: Env)
    requires Inv(s) && s.health == Up && Sensible(e) && NoneStale(s)
    ensures NoneStale(Step(s, e, env)) || (s.md.Live? && Step(s, e, env).md.Null?)
  {
    hide NoneStale, QueueSafe, CmdQueue.Inv, OnMdStatus, OnTdStatus, OnStart, OnStop, OnUser, OnGotContracts,
         OnRunCmdInterval;
    match e
    case OnMd(status) => OnMdKeepsNoneStale(s, status, env);
    case OnTd(status) => OnTdKeepsNoneStale(s, status, env);
    case Start => OnStartKeepsNoneStale(s, env);
    case Stop => OnStopKeepsNoneStale(s, env);
    case User(kind) => OnUserKeepsNoneStale(s, kind, env);
    case GotContracts => OnGotContractsKeepsNoneStale(s, env);
    case Timer => OnTimerKeepsNoneStale(s, env);
  }

  lemma OnUserKeepsNoneStale(s: State, kind: Kind, env: Env)
    requires NoneStale(s) && IsUserCommand(kind)
    ensures NoneStale(OnUser(s, kind, env))
  {
    hide NoneStale, Run;
    if s.td.Live? {
      NoneStaleRun(s, kind, s.td, 0, env.now, env.first);
    }
  }

  lemma OnTimerKeepsNoneStale(s: State, env: Env)
    requires NoneStale(s)
    ensures NoneStale(OnRunCmdInterval(s, env))
  {
    hide Usable;
    var t := OnRunCmdInterval(s, env);
    if t.queue != s.queue {
      var dropped := |s.queue.cmds| - |t.queue.cmds|;
      assert dropped == 0 || dropped == 1;
      forall i | 0 <= i < |t.queue.cmds| ensures !Stale(t, t.queue.cmds[i].what) {
        assert t.queue.cmds[i].what == s.queue.cmds[i + dropped].what;
      }
    }
  }

  lemma EndsMdIff(s: State, e: Event, env: Env)
    requires Inv(s) && s.health == Up && Sensible(e)
    ensures s.md.Live? && Step(s, e, env).md.Null? <==> EndsMd(s, e)
  {
    hide Inv, RunCmd, ResetCmds, CmdQueue.OnTimer;
    InvSessions(s);
  }

  /** What waits after such an event. */
  lemma EndsMdLeaves(s: State, e: Event, env: Env)
    requires Inv(s) && s.health == Up && EndsMd(s, e)
    ensures var (t, trade) := (Step(s, e, env), e == Stop && s.td.Live?);
            if trade && !s.tdLogined then t.queue.cmds == []
            else if trade then t.queue == RunCmd(s.queue, Call(TdLogout, s.td.id), 0, env.now, env.first)
            else t.queue == s.queue
  {
    hide Inv, RunCmd, ResetCmds;
    InvSessions(s);
  }

  lemma LogoutNeedsNoMd(q: Queue<Call>, owner: nat, now: nat, result: int)
    ensures var r := RunCmd(q, Call(TdLogout, owner), 0, now, result);
            (exists i :: 0 <= i < |r.cmds| && NeedsMd(r.cmds[i].what)) <==>
            exists i :: 0 <= i < |q.cmds| && NeedsMd(q.cmds[i].what)
  {
    var r := RunCmd(q, Call(TdLogout, owner), 0, now, result);
    assert forall i :: 0 <= i < |q.cmds| ==> r.cmds[i] == q.cmds[i];
  }

  lemma StaleWithoutMd(s: State)
    requires s.md.Null?
    ensures NoneStale(s) <==> !Waiting(s)
  {
    assert forall i :: 0 <= i < |s.queue.cmds| ==>
        (Stale(s, s.queue.cmds[i].what) <==> NeedsMd(s.queue.cmds[i].what));
  }

  /** Commands are orphaned exactly by an event that ends the market-data session while one waits
      that needs it, and does not end trading at once as well. */
  lemma OrphansIff(s: State, e: Event, env: Env)
    requires Inv(s) && s.health == Up && Sensible(e) && NoneStale(s)
    ensures NoneStale(Step(s, e, env)) <==> !Orphans(s, e)
  {
    hide Inv, Step, Sensible, NoneStale, EndsMd, NeedsMd, RunCmd;
    var t := Step(s, e, env);
    StepKeepsNoneStale(s, e, env);
    EndsMdIff(s, e, env);
    if EndsMd(s, e) {
      StaleWithoutMd(t);
      EndsMdLeaves(s, e, env);
      if s.td.Live? {
        LogoutNeedsNoMd(s.queue, s.td.id, env.now, env.first);
      }
    }
  }

  /** In every state of the run all waiting commands have what they need. */
  predicate AlwaysClean(events: seq<(Event, Env)>) {
    forall k :: 0 <= k <= |events| ==> NoneStale(Runs(Initial(), events[..k]))
  }

  /** No event of the run orphans a command. */
  predicate NoneOrphans(events: seq<(Event, Env)>) {
    forall k :: 0 <= k < |events| ==> !Orphans(Runs(Initial(), events[..k]), events[k].0)
  }

  /** All along a run no command outlives its session exactly if no event of it comes, in the
      state before it, to end the market-data session over a waiting command. */
  lemma {:induction false} CleanIff(events: seq<(Event, Env)>)
    requires forall i :: 0 <= i < |events| ==> Sensible(events[i].0)
    ensures AlwaysClean(events) <==> NoneOrphans(events)
  {
    hide Inv, Runs, Sensible, NoneStale, Orphans;
    if events == [] {
      assert NoneStale(Runs(Initial(), [])) by { NothingRun(); }
    } else {
      var n := |events| - 1;
      var front := events[..n];
      CleanIff(front);
      assert forall k :: 0 <= k <= n ==> front[..k] == events[..k];
      assert AlwaysClean(front) <==> forall k :: 0 <= k <= n ==> NoneStale(Runs(Initial(), events[..k]));
      assert events[..n + 1] == events;
      if AlwaysClean(front) {
        assert front[..n] == front;
        RunsLast(events);
        SafeOverRuns(front);
        LastOrphansIff(Runs(Initial(), front), events[n].0, events[n].1);
      }
    }
  }

  lemma LastOrphansIff(s: State, e: Event, env: Env)
    requires Inv(s) && Sensible(e) && NoneStale(s)
    ensures NoneStale(Step(s, e, env)) <==> !Orphans(s, e)
  {
    hide Inv, Step, Sensible, NoneStale;
    if s.health == Up {
      OrphansIff(s, e, env);
    } else {
      StepEnded(s, e, env);
    }
  }

  lemma NothingRun()
    ensures NoneStale(Runs(Initial(), []))
  {
  }

  lemma RunsLast(events: seq<(Event, Env)>)
    requires events != []
    ensures Runs(Initial(), events)
         == Step(Runs(Initial(), events[..|events| - 1]), events[|events| - 1].0, events[|events| - 1].1)
  {
  }

  /** Then the timer never touches anything that is gone. */
  lemma CleanRunsNeverDangle(events: seq<(Event, Env)>, env: Env)
    requires forall i :: 0 <= i < |events| ==> Sensible(events[i].0)
    requires NoneOrphans(events) && Runs(Initial(), events).health == Up
    ensures Step(Runs(Initial(), events), Timer, env).health == Up
  {
    hide Inv, Step, Sensible, NoneStale, Orphans;
    SafeOverRuns(events);
    CleanIff(events);
    assert events[..|events|] == events;
    CleanTimer(Runs(Initial(), events), env);
  }

  lemma CleanTimer(s: State, env: Env)
    requires Inv(s) && s.health == Up && NoneStale(s)
    ensures Step(s, Timer, env).health == Up
  {
    hide Inv, Step;
    SensibleTimer();
    StepKeepsInv(s, Timer, env);
  }

  lemma SensibleTimer()
    ensures Sensible(Timer)
  {
  }

  /** A trading session that goes away takes every queued command with it, of either side. */
  lemma TradingEndsQueue(s: State, e: Event, env: Env)
    requires Inv(s) && s.health == Up && Sensible(e)
    requires s.td.Live? && (Step(s, e, env).td.Null? || e == OnTd(TdDisconnected))
    ensures Step(s, e, env).queue.cmds == []
  {
    hide Inv, RunCmd, ResetCmds, CmdQueue.OnTimer;
    InvSessions(s);
  }

  lemma InvSessions(s: State)
    requires Inv(s)
    ensures SessionsSafe(s)
  {
  }

  // ---------------------------------------------------------------- stopping for good

  /** Market data gone, and trading not to be logged in again. */
  predicate Stopping(s: State) {
    s.md.Null? && (s.td.Live? ==> !s.autoLoginTd)
  }

  lemma StopBegins(s: State, env: Env)
    requires Inv(s) && s.health == Up
    ensures Stopping(Step(s, Stop, env))
  {
    hide Inv, RunCmd, ResetCmds;
    InvSessions(s);
  }

  lemma StepKeepsStopping(s: State, e: Event, env: Env)
    requires Inv(s) && s.health == Up && Sensible(e) && Stopping(s) && e != Start
    ensures var t := Step(s, e, env);
            Stopping(t) && t.made == s.made && (t.td == s.td || t.td.Null?)
  {
    hide Inv, RunCmd, ResetCmds, CmdQueue.OnTimer;
    InvSessions(s);
  }

  /** A stop lasts: until the next start no session is made again, whatever events still come,
      and none of them but a late login leaves the trading session in place. */
  lemma {:induction false} StopLasts(s: State, events: seq<(Event, Env)>)
    requires Inv(s) && s.health == Up && Stopping(s)
    requires forall i :: 0 <= i < |events| ==> Sensible(events[i].0) && events[i].0 != Start
    ensures var t := Runs(s, events);
            && Inv(t) && Stopping(t) && t.made == s.made && (t.td == s.td || t.td.Null?)
            && forall i :: 0 <= i < |events| && events[i].0.OnTd? && events[i].0.tdStatus != TdLogined ==>
                 t.td.Null? || t.health != Up
  {
    hide Inv, Step, Sensible, Stopping;
    if events != [] {
      var front, last := events[..|events| - 1], events[|events| - 1];
      var t := Runs(s, front);
      StopLasts(s, front);
      if t.health == Up {
        StepKeepsInv(t, last.0, last.1);
        StepKeepsStopping(t, last.0, last.1);
        if last.0.OnTd? && last.0.tdStatus != TdLogined {
          StatusEndsTrading(t, last.0, last.1);
        }
      } else {
        StepEnded(t, last.0, last.1);
      }
      forall i | 0 <= i < |events| && events[i].0.OnTd? && events[i].0.tdStatus != TdLogined
        ensures Runs(s, events).td.Null? || Runs(s, events).health != Up
      {
        if i < |front| {
          assert front[i] == events[i];
        }
      }
    }
  }

  lemma StatusEndsTrading(s: State, e: Event, env: Env)
    requires Inv(s) && s.health == Up && Stopping(s) && e.OnTd? && e.tdStatus != TdLogined
    ensures Step(s, e, env).td.Null?
  {
    hide Inv, RunCmd, ResetCmds;
    InvSessions(s);
  }

  // ---------------------------------------------------------------- two runs that go wrong

  lemma RunsAppend(events: seq<(Event, Env)>, e: Event, env: Env)
    ensures Runs(Initial(), events + [(e, env)]) == Step(Runs(Initial(), events), e, env)
  {
    assert (events + [(e, env)])[..|events|] == events;
  }

  function At(now: nat): Env {
    Env(now, 0, 0, true, true)
  }

  /** Both sides connected, the trading side logged in. */
  const TRADING: seq<(Event, Env)> := [(Start, At(0)), (OnTd(TdConnected), At(0)), (Timer, At(1000)),
                                       (OnTd(TdLogined), At(1500)), (OnMd(MdConnected), At(2000))]

  lemma AfterTrading()
    ensures var s := Runs(Initial(), TRADING);
            && s.md == Live(0, true) && s.td == Live(1, true) && s.health == Up
            && s.autoLoginMd && s.autoLoginTd && !s.mdLogined && s.tdLogined
            && s.queue.cmds == [Cmd(1, Call(MdLogin, 0), 3000)]
  {
    var e0: seq<(Event, Env)> := [];
    var e1 := e0 + [(Start, At(0))];
    var e2 := e1 + [(OnTd(TdConnected), At(0))];
    var e3 := e2 + [(Timer, At(1000))];
    var e4 := e3 + [(OnTd(TdLogined), At(1500))];
    assert TRADING == e4 + [(OnMd(MdConnected), At(2000))];
    RunsAppend(e0, Start, At(0));
    RunsAppend(e1, OnTd(TdConnected), At(0));
    assert Runs(Initial(), e2).queue.cmds == [Cmd(0, Call(TdLogin, 1), 1000)];
    RunsAppend(e2, Timer, At(1000));
    assert Runs(Initial(), e3).queue.cmds == [];
    RunsAppend(e3, OnTd(TdLogined), At(1500));
    RunsAppend(e4, OnMd(MdConnected), At(2000));
  }

  /** Stopping while a market-data login waits: the timer then calls a deleted session. */
  lemma StoppedLoginDangles()
    ensures Runs(Initial(), TRADING + [(Stop, At(2500))] + [(Timer, At(3000))]).health == Dangling
  {
    AfterTrading();
    RunsAppend(TRADING, Stop, At(2500));
    RunsAppend(TRADING + [(Stop, At(2500))], Timer, At(3000));
  }

  /** Stopping while the instrument query waits: it then resets a market-data session that is
      no more. */
  lemma StoppedQueryDangles()
    ensures Runs(Initial(), TRADING + [(Timer, At(3000))] + [(OnMd(MdLogined), At(3500))]
                            + [(Stop, At(4000))] + [(Timer, At(4500))]).health == Dangling
  {
    AfterTrading();
    var e1 := TRADING + [(Timer, At(3000))];
    var e2 := e1 + [(OnMd(MdLogined), At(3500))];
    var e3 := e2 + [(Stop, At(4000))];
    RunsAppend(TRADING, Timer, At(3000));
    assert Runs(Initial(), e1).queue.cmds == [];
    RunsAppend(e1, OnMd(MdLogined), At(3500));
    assert Runs(Initial(), e2).queue.cmds[0].what == Call(QueryInstrument, 1);
    assert Runs(Initial(), e2).queue.cmds[0].due == 4500;
    RunsAppend(e2, Stop, At(4000));
    RunsAppend(e3, Timer, At(4500));
  }
}
