/** init's service record and the functions that change it, each against its step in InitService. */
module ServiceRecord {
  import opened InitService

  class Record {
    const config: Config
    var pid: int
    var invalid: bool
    var needRestart: bool
    var needStop: bool
    var timer: bool
    var crashCnt: nat
    var firstCrashTime: nat

    constructor (config: Config)
      ensures this.config == config && State() == Fresh()
    {
      this.config := config;
      pid, invalid, needRestart, needStop, timer, crashCnt, firstCrashTime := 0, false, false, false, false, 0, 0;
    }

    ghost function State(): Service
      reads this
    {
      Service(pid, invalid, needRestart, needStop, timer, crashCnt, firstCrashTime)
    }

    // True when the service must not be started.
    method IsServiceInvalid(fork: Fork) returns (bad: bool)
      requires !fork.NoArguments?
      modifies this
      ensures bad == (old(invalid) || fork.NoExecutable?)
      ensures State() == if old(invalid) then old(State())
                         else old(State()).(needRestart := false, needStop := false, invalid := fork.NoExecutable?)
    {
      if invalid { return true; }
      needRestart, needStop := false, false;
      if fork.NoExecutable? {
        invalid := true;
        return true;
      }
      return false;
    }

    method ServiceStart(fork: Fork) returns (ok: bool)
      modifies this
      ensures (State(), ok) == Start(old(State()), fork)
    {
      if pid > 0 { return true; }
      if fork.NoArguments? { return false; }
      var bad := IsServiceInvalid(fork);
      if bad { return false; }
      if fork.NoProcess? { return false; }
      pid := fork.pid;
      return true;
    }

    method ServiceStopTimer()
      modifies this
      ensures State() == old(State()).(timer := false)
    {
      if timer { timer := false; }
    }

    method ServiceStop(killed: bool) returns (ok: bool)
      modifies this
      ensures (State(), ok) == Stop(old(State()), killed)
    {
      needRestart := false;
      needStop := true;
      if pid <= 0 { return true; }
      if timer { ServiceStopTimer(); }
      if !killed { return false; }
      pid := -1;
      return true;
    }

    method CalculateCrashTime(now: nat) returns (ok: bool)
      modifies this
      ensures (State(), ok) == Crash(config, old(State()), now)
    {
      if config.crashTime <= 0 || config.crashCount <= 0 { return false; }
      if crashCnt == 0 {
        firstCrashTime := now;
        crashCnt := crashCnt + 1;
        if crashCnt == config.crashCount { return false; }
      } else if now - firstCrashTime > config.crashTime {
        firstCrashTime := now;
        crashCnt := 1;
      } else {
        crashCnt := crashCnt + 1;
        if crashCnt >= config.crashCount { return false; }
      }
      return true;
    }

    // Both kinds of timer; an old one is stopped first.
    method ServiceStartTimer(timerOk: bool)
      modifies this
      ensures State() == old(State()).(timer := timerOk)
    {
      if timer { ServiceStopTimer(); }
      if !timerOk { return; }
      timer := true;
    }

    method ServiceReap(u: Surroundings) returns (down: bool)
      modifies this
      ensures (State(), down) == Reap(config, old(State()), u)
    {
      pid := -1;
      if invalid { return false; }
      if timer { return false; }
      if needStop {
        needStop := false;
        crashCnt := 0;
        return false;
      }
      if config.once {
        if !needRestart {
          needStop := false;
          return false;
        }
      }
      if config.period {
        ServiceStartTimer(u.timerOk);
        return false;
      }
      if config.onDemand {
        if config.console && !u.watchOk { invalid := true; }
        return false;
      }
      var ok;
      if config.critical {
        ok := CalculateCrashTime(u.now);
        if !ok {
          pid := -1;
          if !u.rebootReturns { return true; }
        }
      } else if !needRestart {
        ok := CalculateCrashTime(u.now);
        if !ok {
          crashCnt := 0;
          ServiceStartTimer(u.timerOk);
          return false;
        }
      }
      ok := ServiceStart(u.fork);
      needRestart := false;
      return false;
    }

    // Both timer handlers.
    method TimerProcess(fork: Fork)
      modifies this
      ensures State() == TimerFires(old(State()), fork)
    {
      ServiceStopTimer();
      var ok := ServiceStart(fork);
    }
  }
}
