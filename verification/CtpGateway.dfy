/** The CTP gateway manager: session objects, login flags and the command queue, updated in
    place by event handlers that call one another. */
module CtpGateway {
  import opened CmdQueue
  import opened CtpSession

  /** A market-data or trading session; api stands for the pointer to the exchange's API. */
  class Sm {
    const id: nat
    var api: bool

    constructor (id: nat)
      ensures this.id == id && !api
    {
      this.id, api := id, false;
    }

    method Start()
      requires !api
      modifies this
      ensures api
    {
      api := true;
    }
  }

  ghost function SessionOf(sm: Sm?): Session
    reads sm
  {
    if sm == null then Null else Live(sm.id, sm.api)
  }

  class GatewayMgr {
    var mdsm: Sm?
    var tdsm: Sm?
    var mdsmLogined: bool
    var tdsmLogined: bool
    var autoLoginMd: bool
    var autoLoginTd: bool
    var cmds: seq<Cmd<Call>>
    var reqId: int

    /** Counters that stand for the identity of command and session objects. */
    var given: nat
    var made: nat

    /** The commands' record, and whether the program is still up. */
    ghost var queue: Queue<Call>
    ghost var health: Health

    ghost function View(): State
      reads this, mdsm, tdsm
    {
      State(SessionOf(mdsm), SessionOf(tdsm), mdsmLogined, tdsmLogined, autoLoginMd, autoLoginTd,
            queue, made, health)
    }

    ghost predicate Tied()
      reads this
    {
      && queue.cmds == cmds && queue.reqId == reqId && |queue.given| == given
      && (mdsm != null ==> mdsm != tdsm)
    }

    ghost predicate Valid()
      reads this, mdsm, tdsm
    {
      Tied() && health == Up && CtpSession.Inv(View())
    }

    constructor ()
      ensures Valid() && View() == Initial()
    {
      mdsm, tdsm := null, null;
      mdsmLogined, tdsmLogined, autoLoginMd, autoLoginTd := false, false, false, false;
      cmds, reqId, given, made := [], 0, 0, 0;
      queue, health := CmdQueue.Empty(), Up;
      new;
      InitialSafe();
    }

    // -------------------------------------------------------------- the command queue

    method RunCmd(kind: Kind, owner: Sm, delayTick: nat, now: nat, result: int)
      requires Tied()
      modifies this`cmds, this`reqId, this`given, this`queue
      ensures Tied() && queue == CmdQueue.RunCmd(old(queue), Call(kind, owner.id), delayTick, now, result)
    {
      queue := CmdQueue.RunCmd(queue, Call(kind, owner.id), delayTick, now, result);
      var cmd := Cmd(given, Call(kind, owner.id), now);
      given := given + 1;
      if delayTick == 0 {
        reqId := reqId + 1;
        if result == -3 || result == -2 {
          cmds := cmds + [cmd.(due := now + 1000)];
        }
      } else {
        cmds := cmds + [cmd.(due := now + delayTick)];
      }
    }

    method ResetCmds()
      requires Tied()
      modifies this`cmds, this`queue
      ensures Tied() && queue == CmdQueue.ResetCmds(old(queue))
    {
      queue := CmdQueue.ResetCmds(queue);
      if |cmds| > 0 {
        cmds := [];
      }
    }

    // -------------------------------------------------------------- status events

    /** stop() of the market-data session: it gives up its API and reports MDSM_STOPPED, which
        comes back here before stop() returns. */
    method StopMd(env: Env)
      requires Tied() && mdsm != null && mdsm.api
      modifies this, mdsm
      ensures Tied() && View() == MdGone(old(View())) && tdsm == old(tdsm)
      decreases 1
    {
      mdsm.api := false;
      OnMdSmStateChanged(MdStopped, env);
    }

    method StopTd(env: Env)
      requires Tied() && tdsm != null && tdsm.api
      modifies this, tdsm
      ensures Tied() && View() == TdGone(old(View())) && mdsm == old(mdsm)
      decreases 1
    {
      tdsm.api := false;
      OnTdSmStateChanged(TdStopped, env);
    }

    method OnMdSmStateChanged(status: MdStatus, env: Env)
      requires Tied() && (status != MdStopped ==> SessionsSafe(View()))
      modifies this, mdsm
      ensures Tied() && View() == OnMdStatus(old(View()), status, env)
      ensures status == MdStopped ==> tdsm == old(tdsm)
      ensures tdsm == old(tdsm) || fresh(tdsm)
      decreases if status == MdStopped then 0 else 2
    {
      hide CmdQueue.RunCmd, CmdQueue.ResetCmds, CtpSession.TryStartSubscrible;
      if mdsm == null {
        return;
      }
      match status
      case MdConnected =>
        mdsmLogined := false;
        if autoLoginMd {
          RunCmd(MdLogin, mdsm, 1000, env.now, env.first);
        } else {
          StopMd(env);
        }
      case MdDisconnected =>
        mdsmLogined := false;
        if !autoLoginMd {
          StopMd(env);
        }
      case MdLogined =>
        mdsmLogined := true;
        TryStartSubscrible(env);
      case MdLoginFail =>
        if autoLoginMd {
          RunCmd(MdLogin, mdsm, 60 * 1000, env.now, env.first);
        } else {
          StopMd(env);
        }
      case MdStopped =>
        mdsmLogined := false;
        mdsm := null;
        mdsmLogined := false;
    }

    method OnTdSmStateChanged(status: TdStatus, env: Env)
      requires Tied() && (status != TdStopped ==> SessionsSafe(View()))
      modifies this, tdsm
      ensures Tied() && View() == OnTdStatus(old(View()), status, env)
      ensures mdsm == old(mdsm)
      decreases if status == TdStopped then 0 else 2
    {
      hide CmdQueue.RunCmd, CmdQueue.ResetCmds, CtpSession.TryStartSubscrible;
      if tdsm == null {
        return;
      }
      match status
      case TdConnected =>
        tdsmLogined := false;
        if autoLoginTd {
          RunCmd(TdLogin, tdsm, 1000, env.now, env.first);
        } else {
          StopTd(env);
        }
      case TdDisconnected =>
        ResetCmds();
        tdsmLogined := false;
        if !autoLoginTd {
          StopTd(env);
        }
      case TdLogined =>
        tdsmLogined := true;
        TryStartSubscrible(env);
      case TdLoginFail =>
        if autoLoginTd {
          RunCmd(TdLogin, tdsm, 60 * 1000, env.now, env.first);
        } else {
          StopTd(env);
        }
      case TdLogouted =>
        tdsmLogined := false;
        StopTd(env);
      case TdLogoutFail =>
        tdsmLogined := false;
        StopTd(env);
      case TdStopped =>
        ResetCmds();
        tdsmLogined := false;
        tdsm := null;
        tdsmLogined := false;
    }

    /** Neither session pointer is null where it is used: a login flag implies its session. */
    method TryStartSubscrible(env: Env)
      requires Tied() && SessionsSafe(View())
      modifies this
      ensures Tied() && View() == CtpSession.TryStartSubscrible(old(View()), env)
      ensures mdsm == old(mdsm) && (tdsm == old(tdsm) || fresh(tdsm))
      decreases 0
    {
      hide CmdQueue.RunCmd;
      if mdsmLogined && tdsmLogined {
        RunCmd(QueryInstrument, tdsm, 1000, env.now, env.first);
      }
      if tdsm == null {
        var ok := InitTdSm(env.tdParams);
        if !ok {
          health := Fatal;
          return;
        }
        StartTdSm();
      }
    }

    // -------------------------------------------------------------- making sessions

    method InitMdSm(params: bool) returns (ok: bool)
      requires mdsm == null && Tied()
      modifies this`mdsm, this`made
      ensures Tied() && made == old(made) + 1 && ok == params
      ensures if ok then mdsm != null && fresh(mdsm) && mdsm.id == old(made) && !mdsm.api else mdsm == null
    {
      mdsm := new Sm(made);
      made := made + 1;
      if !params {
        mdsm := null;
        return false;
      }
      return true;
    }

    method InitTdSm(params: bool) returns (ok: bool)
      requires tdsm == null && Tied()
      modifies this`tdsm, this`made
      ensures Tied() && made == old(made) + 1 && ok == params
      ensures if ok then tdsm != null && fresh(tdsm) && tdsm.id == old(made) && !tdsm.api else tdsm == null
    {
      tdsm := new Sm(made);
      made := made + 1;
      if !params {
        tdsm := null;
        return false;
      }
      return true;
    }

    method StartMdSm()
      requires Tied() && mdsm != null && !mdsm.api
      modifies this`autoLoginMd, mdsm
      ensures Tied() && autoLoginMd && mdsm.api
    {
      autoLoginMd := true;
      mdsm.Start();
    }

    method StartTdSm()
      requires Tied() && tdsm != null && !tdsm.api
      modifies this`autoLoginTd, tdsm
      ensures Tied() && autoLoginTd && tdsm.api
    {
      autoLoginTd := true;
      tdsm.Start();
    }

    // -------------------------------------------------------------- the user and the timer

    method Start(env: Env)
      requires Tied()
      modifies this
      ensures Tied() && View() == OnStart(old(View()), env)
      ensures mdsm == old(mdsm) || fresh(mdsm)
      ensures tdsm == old(tdsm) || fresh(tdsm)
    {
      if mdsm != null || tdsm != null {
        return;
      }
      var ok := InitMdSm(env.mdParams);
      if !ok {
        return;
      }
      ok := InitTdSm(env.tdParams);
      if !ok {
        mdsm := null;
        return;
      }
      StartMdSm();
      StartTdSm();
    }

    method Stop(env: Env)
      requires Tied() && health == Up && SessionsSafe(View())
      modifies this, mdsm, tdsm
      ensures Tied() && View() == OnStop(old(View()), env)
    {
      hide CmdQueue.RunCmd, CmdQueue.ResetCmds;
      if mdsm == null && tdsm == null {
        return;
      }
      if mdsm != null {
        autoLoginMd := false;
        StopMd(env);
      }
      if tdsm != null {
        autoLoginTd := false;
        if tdsmLogined {
          RunCmd(TdLogout, tdsm, 0, env.now, env.first);
        } else {
          StopTd(env);
        }
      }
    }

    /** sendOrder, sendOrderWithId, cancelOrder, queryAccount, queryPosition, queryOrders. */
    method UserCommand(kind: Kind, env: Env)
      requires Tied() && IsUserCommand(kind)
      modifies this
      ensures Tied() && View() == OnUser(old(View()), kind, env)
    {
      hide CmdQueue.RunCmd;
      if tdsm == null {
        return;
      }
      RunCmd(kind, tdsm, 0, env.now, env.first);
    }

    method OnGotContracts(env: Env)
      requires Tied()
      modifies this
      ensures Tied() && View() == CtpSession.OnGotContracts(old(View()), env)
    {
      hide CmdQueue.RunCmd;
      if mdsm == null {
        health := Dangling;
        return;
      }
      RunCmd(MdSubscribe, mdsm, 0, env.now, env.first);
      if tdsm == null {
        health := Dangling;
        return;
      }
      RunCmd(ConfirmSettlement, tdsm, 0, env.now, env.second);
    }

    /** Whether what a command works on is still there. The program does not ask; where it would
        go wrong, health says so. */
    predicate Reachable(c: Call)
      reads this, mdsm, tdsm
      ensures Reachable(c) == Usable(View(), c)
    {
      if OfMarketData(c.kind) then
        mdsm != null && mdsm.id == c.owner
      else
        tdsm != null && tdsm.id == c.owner && (c.kind == QueryInstrument ==> mdsm != null)
    }

    method OnRunCmdInterval(env: Env)
      requires Tied()
      modifies this
      ensures Tied() && View() == CtpSession.OnRunCmdInterval(old(View()), env)
    {
      if |cmds| == 0 {
        return;
      }
      var cmd := cmds[0];
      if env.now % WORD < cmd.Expires() {
        return;
      }
      if !Reachable(cmd.what) {
        health := Dangling;
        return;
      }
      queue := OnTimer(queue, env.now, env.first);
      reqId := reqId + 1;
      if env.first == -3 {
        cmds := [cmd.(due := env.now + 1000)] + cmds[1..];
        return;
      }
      cmds := cmds[1..];
    }

    /** Any event in any safe state: the new state is the one the specification gives, and
        while the program is up it is safe again. */
    method Handle(e: Event, env: Env)
      requires Valid() && Sensible(e)
      modifies this, mdsm, tdsm
      ensures Tied() && View() == Step(old(View()), e, env)
      ensures health == Up ==> Valid()
    {
      hide CmdQueue.Inv, QueueSafe, OnMdStatus, OnTdStatus, OnStart, OnStop, OnUser, CtpSession.OnGotContracts,
        CtpSession.OnRunCmdInterval;
      StepKeepsInv(View(), e, env);
      match e
      case OnMd(status) => OnMdSmStateChanged(status, env);
      case OnTd(status) => OnTdSmStateChanged(status, env);
      case Start => Start(env);
      case Stop => Stop(env);
      case User(kind) => UserCommand(kind, env);
      case GotContracts => OnGotContracts(env);
      case Timer => OnRunCmdInterval(env);
    }
  }
}
