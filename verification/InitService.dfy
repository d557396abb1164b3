/** One service as init supervises it: start, stop, reap, the timers, and the window in which crashes
    are counted.  What the system calls answer comes in as parameters. */
module InitService {

  // What the configuration file says about the service.
  datatype Config = Config(once: bool, critical: bool, period: bool, onDemand: bool, console: bool,
                           crashTime: int, crashCount: int)

  // The fields that change.
  datatype Service = Service(pid: int, invalid: bool, needRestart: bool, needStop: bool, timer: bool,
                             crashCnt: nat, firstCrash: nat)

  // How far a start gets: no arguments, no executable at the path, no new process, or a process.
  datatype Fork = NoArguments | NoExecutable | NoProcess | Forked(pid: nat)

  // What happens around a reap: the clock, whether a timer can be had, whether the console can be
  // watched, whether the reboot call comes back, and how a start ends.
  datatype Surroundings = Surroundings(now: nat, timerOk: bool, watchOk: bool, rebootReturns: bool, fork: Fork)

  function Fresh(): Service {
    Service(0, false, false, false, false, 0, 0)
  }

  function Start(s: Service, f: Fork): (Service, bool) {
    if s.pid > 0 then (s, true)
    else if f.NoArguments? || s.invalid then (s, false)
    else
      var s := s.(needRestart := false, needStop := false);
      match f
      case Forked(p) => (s.(pid := p), true)
      case NoProcess => (s, false)
      case _ => (s.(invalid := true), false)
  }

  function Stop(s: Service, killed: bool): (Service, bool) {
    var s := s.(needRestart := false, needStop := true);
    if s.pid <= 0 then (s, true)
    else if !killed then (s.(timer := false), false)
    else (s.(timer := false, pid := -1), true)
  }

  // Counts a crash; false when there are too many in the window.
  function Crash(c: Config, s: Service, now: nat): (Service, bool) {
    if c.crashTime <= 0 || c.crashCount <= 0 then (s, false)
    else if s.crashCnt == 0 then (s.(firstCrash := now, crashCnt := 1), c.crashCount != 1)
    else if now - s.firstCrash > c.crashTime then (s.(firstCrash := now, crashCnt := 1), true)
    else (s.(crashCnt := s.crashCnt + 1), s.crashCnt + 1 < c.crashCount)
  }

  function Restart(s: Service, f: Fork): Service {
    Start(s, f).0.(needRestart := false)
  }

  // The service after the reap, and whether the system goes down.
  function Reap(c: Config, s: Service, u: Surroundings): (Service, bool) {
    var s := s.(pid := -1);
    if s.invalid || s.timer then (s, false)
    else if s.needStop then (s.(needStop := false, crashCnt := 0), false)
    else if c.once && !s.needRestart then (s, false)
    else if c.period then (s.(timer := u.timerOk), false)
    else if c.onDemand then (s.(invalid := c.console && !u.watchOk), false)
    else if c.critical then
      var (s', ok) := Crash(c, s, u.now);
      if !ok && !u.rebootReturns then (s', true) else (Restart(s', u.fork), false)
    else if s.needRestart then (Restart(s, u.fork), false)
    else
      var (s', ok) := Crash(c, s, u.now);
      if !ok then (s'.(crashCnt := 0, timer := u.timerOk), false) else (Restart(s', u.fork), false)
  }

  function TimerFires(s: Service, f: Fork): Service {
    Start(s.(timer := false), f).0
  }

  // ---------- runs ----------

  // unreaped: processes the service has forked and init has not yet collected; live: those of them
  // that no stop has signalled; crashes: the times at which a crash was counted.
  datatype System = System(svc: Service, unreaped: set<nat>, live: set<nat>, halted: bool, clock: nat,
                           crashes: seq<nat>, forks: nat)

  datatype Event =
    | StartCommand(fork: Fork)
    | StopCommand(killed: bool)
    | Exited(pid: nat, around: Surroundings)
    | Timer(fork: Fork)
    | RestartWanted

  function Initial(): System {
    System(Fresh(), {}, {}, false, 0, [], 0)
  }

  // A new process has a number that no uncollected process has.
  predicate NewProcess(f: Fork, taken: set<nat>) {
    f.Forked? ==> f.pid > 0 && f.pid !in taken
  }

  predicate Enabled(s: System, e: Event) {
    && !s.halted
    && match e
       case StartCommand(f) => NewProcess(f, s.unreaped)
       case StopCommand(_) => true
       case Exited(p, u) => p in s.unreaped && NewProcess(u.fork, s.unreaped - {p}) && s.clock <= u.now
       case Timer(f) => s.svc.timer && NewProcess(f, s.unreaped)
       case RestartWanted => true
  }

  // Records the process that a start has made, if it has made one.
  function Note(s: System, was: Service, now: Service): System {
    var s := s.(svc := now);
    if now.pid > 0 && now.pid != was.pid then
      s.(unreaped := s.unreaped + {now.pid as nat}, live := s.live + {now.pid as nat}, forks := s.forks + 1)
    else s
  }

  // Does this reap count a crash?
  predicate Counts(c: Config, s: Service) {
    && !s.invalid && !s.timer && !s.needStop && (c.once ==> s.needRestart) && !c.period && !c.onDemand
    && (c.critical || !s.needRestart) && c.crashTime > 0 && c.crashCount > 0
  }

  function Step(c: Config, s: System, e: Event): System
    requires Enabled(s, e)
  {
    match e
    case StartCommand(f) => Note(s, s.svc, Start(s.svc, f).0)
    case StopCommand(killed) =>
      var (svc, ok) := Stop(s.svc, killed);
      if ok && s.svc.pid > 0 then s.(svc := svc, live := s.live - {s.svc.pid as nat}) else s.(svc := svc)
    case Exited(p, u) =>
      // init looks for the service with this process number
      var s := s.(unreaped := s.unreaped - {p}, live := s.live - {p}, clock := u.now);
      if p != s.svc.pid then s
      else
        var (svc, down) := Reap(c, s.svc, u);
        var counted := if Counts(c, s.svc) then [u.now] else [];
        Note(s.(halted := down, crashes := s.crashes + counted), s.svc.(pid := -1), svc)
    case Timer(f) => Note(s, s.svc, TimerFires(s.svc, f))
    case RestartWanted => s.(svc := s.svc.(needRestart := true))
  }

  predicate CanRun(c: Config, s: System, es: seq<Event>)
    decreases |es|
  {
    es == [] || (Enabled(s, es[0]) && CanRun(c, Step(c, s, es[0]), es[1..]))
  }

  function Run(c: Config, s: System, es: seq<Event>): System
    requires CanRun(c, s, es)
    decreases |es|
  {
    if es == [] then s else Run(c, Step(c, s, es[0]), es[1..])
  }

  // ---------- one child ----------

  // The recorded process is the one and only that is neither collected nor signalled.
  predicate OneChild(s: System) {
    && s.live <= s.unreaped && 0 !in s.unreaped
    && s.live == (if s.svc.pid > 0 then {s.svc.pid as nat} else {})
  }

  lemma StepKeepsOneChild(c: Config, s: System, e: Event)
    requires OneChild(s) && Enabled(s, e)
    ensures OneChild(Step(c, s, e))
  {
  }

  lemma {:induction false} RunKeepsOneChild(c: Config, s: System, es: seq<Event>)
    requires OneChild(s) && CanRun(c, s, es)
    ensures OneChild(Run(c, s, es))
    decreases |es|
  {
    if es != [] {
      StepKeepsOneChild(c, s, es[0]);
      RunKeepsOneChild(c, Step(c, s, es[0]), es[1..]);
    }
  }

  /** In every run there is a live child exactly when a process number is recorded, and it is that one. */
  lemma SingleChild(c: Config, es: seq<Event>)
    requires CanRun(c, Initial(), es)
    ensures var s := Run(c, Initial(), es);
      s.live == (if s.svc.pid > 0 then {s.svc.pid as nat} else {}) && s.live <= s.unreaped
  {
    RunKeepsOneChild(c, Initial(), es);
  }

  // ---------- a stop is final ----------

  predicate NoStartCommand(es: seq<Event>) {
    forall e | e in es :: !e.StartCommand?
  }

  // Nothing in the state can start the service again.
  predicate AtRest(s: System) {
    s.svc.pid <= 0 && 0 !in s.unreaped && (!s.svc.timer || s.svc.invalid)
  }

  lemma {:induction false} StaysAtRest(c: Config, s: System, es: seq<Event>)
    requires AtRest(s) && CanRun(c, s, es) && NoStartCommand(es)
    ensures Run(c, s, es).forks == s.forks && AtRest(Run(c, s, es))
    decreases |es|
  {
    if es != [] {
      assert es[0] in es;
      assert forall e | e in es[1..] :: e in es;
      StaysAtRest(c, Step(c, s, es[0]), es[1..]);
    }
  }

  /** After a stop that succeeds, no exit, timer or other event forks the service before the next start
      command - exactly if the service was running, or had no timer set, or is marked invalid. */
  lemma StopIsFinal(c: Config, s: System, killed: bool)
    requires OneChild(s) && !s.halted && Stop(s.svc, killed).1
    ensures (forall es | NoStartCommand(es) && CanRun(c, Step(c, s, StopCommand(killed)), es) ::
               Run(c, Step(c, s, StopCommand(killed)), es).forks == s.forks)
       <==> s.svc.pid > 0 || !s.svc.timer || s.svc.invalid
  {
    var s' := Step(c, s, StopCommand(killed));
    if s.svc.pid > 0 || !s.svc.timer || s.svc.invalid {
      forall es | NoStartCommand(es) && CanRun(c, s', es) ensures Run(c, s', es).forks == s.forks {
        StaysAtRest(c, s', es);
      }
    } else {
      var es := ForkingTimer(c, s');
    }
  }

  lemma ForkingTimer(c: Config, s: System) returns (es: seq<Event>)
    requires !s.halted && s.svc.pid <= 0 && s.svc.timer && !s.svc.invalid
    ensures NoStartCommand(es) && CanRun(c, s, es) && Run(c, s, es).forks == s.forks + 1
  {
    var p := Unused(s.unreaped);
    var e := Timer(Forked(p));
    es := [e];
    assert es[1..] == [];
  }

  // From the very beginning: a periodic service that has run once and waits for its next turn is
  // stopped, with success, and is started all the same.
  lemma StoppedWhileWaiting(c: Config, u: Surroundings) returns (before: seq<Event>, after: seq<Event>)
    requires c.period && !c.once && u.timerOk
    ensures CanRun(c, Initial(), before)
    ensures var s := Run(c, Initial(), before);
      && OneChild(s) && !s.halted && s.svc.pid <= 0 && s.svc.timer && Stop(s.svc, false).1
      && var stopped := Step(c, s, StopCommand(false));
         NoStartCommand(after) && CanRun(c, stopped, after) && Run(c, stopped, after).forks == s.forks + 1
  {
    var start, exit := StartCommand(Forked(1)), Exited(1, u.(fork := NoProcess));
    before := [start, exit];
    var running := Step(c, Initial(), start);
    assert running.svc.pid == 1 && running.unreaped == {1};
    RunTwo(c, Initial(), start, exit);
    after := ForkingTimer(c, Step(c, Step(c, running, exit), StopCommand(false)));
  }

  lemma RunTwo(c: Config, s: System, a: Event, b: Event)
    requires Enabled(s, a) && Enabled(Step(c, s, a), b)
    ensures CanRun(c, s, [a, b]) && Run(c, s, [a, b]) == Step(c, Step(c, s, a), b)
  {
    hide Step, Enabled;
    var s' := Step(c, s, a);
    assert [a, b][1..] == [b] && [b][1..] == [];
    assert CanRun(c, Step(c, s', b), []);
    assert CanRun(c, s', [b]) && Run(c, s', [b]) == Run(c, Step(c, s', b), []);
  }

  lemma {:induction false} Unused(taken: set<nat>) returns (p: nat)
    ensures p > 0 && p !in taken
    ensures forall q | q in taken :: q < p
  {
    if taken == {} {
      p := 1;
    } else {
      var q :| q in taken;
      p := Unused(taken - {q});
      if q >= p { p := q + 1; }
      forall r | r in taken ensures r < p {
        if r != q { assert r in taken - {q}; }
      }
    }
  }

  // ---------- the crash window ----------

  // The crashes counted from first to first + length.
  function Within(crashes: seq<nat>, first: nat, length: int): nat {
    if crashes == [] then 0
    else Within(crashes[..|crashes| - 1], first, length)
         + (if first <= crashes[|crashes| - 1] <= first + length then 1 else 0)
  }

  // The counter never claims more crashes than lie in the window.
  predicate WindowHolds(c: Config, s: System) {
    && (forall t | t in s.crashes :: t <= s.clock)
    && (s.svc.crashCnt > 0 ==> s.svc.firstCrash <= s.clock)
    && (c.crashTime > 0 && c.crashCount > 0 && s.svc.crashCnt > 0 ==>
          s.svc.crashCnt <= Within(s.crashes, s.svc.firstCrash, c.crashTime))
    && (c.crashTime <= 0 || c.crashCount <= 0 ==> s.svc.crashCnt == 0)
  }

  lemma CrashCounts(c: Config, s: Service, crashes: seq<nat>, now: nat)
    requires c.crashTime > 0 && c.crashCount > 0
    requires s.crashCnt > 0 ==> s.firstCrash <= now && s.crashCnt <= Within(crashes, s.firstCrash, c.crashTime)
    ensures var s' := Crash(c, s, now).0;
      && 0 < s'.crashCnt <= Within(crashes + [now], s'.firstCrash, c.crashTime) && s'.firstCrash <= now
  {
    assert (crashes + [now])[..|crashes + [now]| - 1] == crashes;
  }

  // What a reap does to the counter.
  lemma ReapCounter(c: Config, s: Service, u: Surroundings)
    ensures var s', counted := Reap(c, s, u).0, if Counts(c, s) then Crash(c, s.(pid := -1), u.now).0 else s;
      s'.firstCrash == counted.firstCrash && (s'.crashCnt == counted.crashCnt || s'.crashCnt == 0)
  {
  }

  lemma ReapKeepsWindow(c: Config, s: System, e: Event)
    requires WindowHolds(c, s) && Enabled(s, e) && e.Exited? && e.pid == s.svc.pid
    ensures WindowHolds(c, Step(c, s, e))
  {
    hide Reap, Crash, Within;
    ReapCounter(c, s.svc, e.around);
    if Counts(c, s.svc) { CrashCounts(c, s.svc.(pid := -1), s.crashes, e.around.now); }
    assert s.crashes + [] == s.crashes;
  }

  lemma {:induction false} RunKeepsWindow(c: Config, s: System, es: seq<Event>)
    requires WindowHolds(c, s) && CanRun(c, s, es)
    ensures WindowHolds(c, Run(c, s, es))
    decreases |es|
  {
    if es != [] {
      if es[0].Exited? && es[0].pid == s.svc.pid { ReapKeepsWindow(c, s, es[0]); }
      RunKeepsWindow(c, Step(c, s, es[0]), es[1..]);
    }
  }

  /** In every run, when counting a crash finds too many, at least that many counted crashes, the
      present one included, lie within the allowed time from the first. */
  lemma TooManyMeansMany(c: Config, es: seq<Event>, e: Event)
    requires c.crashTime > 0 && c.crashCount > 0 && CanRun(c, Initial(), es)
    requires var s := Run(c, Initial(), es);
      && Enabled(s, e) && e.Exited? && e.pid == s.svc.pid && Counts(c, s.svc)
      && !Crash(c, s.svc.(pid := -1), e.around.now).1
    ensures var s := Run(c, Initial(), es);
      var first := Crash(c, s.svc.(pid := -1), e.around.now).0.firstCrash;
      Within(s.crashes + [e.around.now], first, c.crashTime) >= c.crashCount
  {
    RunKeepsWindow(c, Initial(), es);
    var s := Run(c, Initial(), es);
    CrashCounts(c, s.svc.(pid := -1), s.crashes, e.around.now);
  }

  predicate BelowLimit(c: Config, s: Service) {
    if c.crashTime > 0 && c.crashCount > 0 then s.crashCnt < c.crashCount else s.crashCnt == 0
  }

  lemma {:induction false} StaysBelowLimit(c: Config, s: System, es: seq<Event>)
    requires !c.critical && BelowLimit(c, s.svc) && CanRun(c, s, es)
    ensures BelowLimit(c, Run(c, s, es).svc)
    decreases |es|
  {
    if es != [] {
      assert BelowLimit(c, Step(c, s, es[0]).svc);
      StaysBelowLimit(c, Step(c, s, es[0]), es[1..]);
    }
  }

  /** The counter of a service that is not critical is below its limit at every point of every run. */
  lemma CounterBelowLimit(c: Config, es: seq<Event>)
    requires !c.critical && CanRun(c, Initial(), es)
    ensures BelowLimit(c, Run(c, Initial(), es).svc)
  {
    StaysBelowLimit(c, Initial(), es);
  }

  // ---------- is the limit looked at? ----------

  // Counting a crash finds too many exactly when the new count has reached the limit.
  predicate LimitIsLookedAt(c: Config, s: Service, now: nat) {
    var (s', ok) := Crash(c, s, now);
    !ok <==> s'.crashCnt >= c.crashCount
  }

  // A window that starts afresh is not compared with the limit, which a limit of one needs.
  lemma WhenTooMany(c: Config, s: Service, now: nat)
    requires c.crashTime > 0 && c.crashCount > 0
    ensures var (s', ok) := Crash(c, s, now);
      !ok <==> s'.crashCnt >= c.crashCount && !(s.crashCnt > 0 && now - s.firstCrash > c.crashTime)
    ensures LimitIsLookedAt(c, s, now)
       <==> !(c.crashCount == 1 && s.crashCnt > 0 && now - s.firstCrash > c.crashTime)
  {
  }

  // The event counts a crash in the state.
  predicate CountsACrash(c: Config, s: System, e: Event) {
    Enabled(s, e) && e.Exited? && e.pid == s.svc.pid && Counts(c, s.svc)
  }

  predicate NoRebootReturned(es: seq<Event>) {
    forall e | e in es :: e.Exited? ==> !e.around.rebootReturns
  }

  lemma ReapBelowOrHalted(c: Config, s: Service, u: Surroundings)
    requires c.crashTime > 0 && c.crashCount > 0 && s.crashCnt < c.crashCount && !u.rebootReturns
    ensures var (s', down) := Reap(c, s, u); down || s'.crashCnt < c.crashCount
  {
  }

  lemma StepBelowOrHalted(c: Config, s: System, e: Event)
    requires c.crashTime > 0 && c.crashCount > 0 && Enabled(s, e) && s.svc.crashCnt < c.crashCount
    requires e.Exited? ==> !e.around.rebootReturns
    ensures var s' := Step(c, s, e); s'.halted || s'.svc.crashCnt < c.crashCount
  {
    hide Reap;
    if e.Exited? { ReapBelowOrHalted(c, s.svc, e.around); }
  }

  // While no reboot has come back, a system that is still up has its counter below the limit.
  lemma {:induction false} StaysBelowOrHalted(c: Config, s: System, es: seq<Event>)
    requires c.crashTime > 0 && c.crashCount > 0 && CanRun(c, s, es) && NoRebootReturned(es)
    requires s.halted || s.svc.crashCnt < c.crashCount
    ensures var s' := Run(c, s, es); s'.halted || s'.svc.crashCnt < c.crashCount
    decreases |es|
  {
    if es != [] {
      hide Step;
      assert es[0] in es && forall e | e in es[1..] :: e in es;
      StepBelowOrHalted(c, s, es[0]);
      StaysBelowOrHalted(c, Step(c, s, es[0]), es[1..]);
    }
  }

  /** Over any run of a service that is not critical, and over any run of any service in which no call
      to reboot has come back, counting a crash finds too many exactly when the count reaches the limit. */
  lemma LimitHolds(c: Config, es: seq<Event>, e: Event)
    requires c.crashTime > 0 && c.crashCount > 0 && CanRun(c, Initial(), es)
    requires !c.critical || NoRebootReturned(es)
    requires CountsACrash(c, Run(c, Initial(), es), e)
    ensures LimitIsLookedAt(c, Run(c, Initial(), es).svc.(pid := -1), e.around.now)
  {
    if c.critical {
      StaysBelowOrHalted(c, Initial(), es);
    } else {
      CounterBelowLimit(c, es);
    }
  }

  // A run of a critical service with a limit of one: the first crash is one too many, the reboot comes
  // back, and a crash after the window is not.
  lemma LimitIsMissed(c: Config) returns (es: seq<Event>, e: Event)
    requires c.crashTime > 0 && c.crashCount == 1 && c.critical && !c.period && !c.onDemand
    ensures CanRun(c, Initial(), es) && CountsACrash(c, Run(c, Initial(), es), e)
    ensures !LimitIsLookedAt(c, Run(c, Initial(), es).svc.(pid := -1), e.around.now)
  {
    var u := Surroundings(0, true, true, true, Forked(2));
    var a, b, r := StartCommand(Forked(1)), Exited(1, u), RestartWanted;
    es := [a, r] + [b, r];
    e := Exited(2, u.(now := c.crashTime + 1, fork := NoProcess));
    var s1 := Step(c, Step(c, Initial(), a), r);
    RunTwo(c, Initial(), a, r);
    assert s1.unreaped == {1} && s1.svc == Service(1, false, true, false, false, 0, 0);
    var s2 := Step(c, Step(c, s1, b), r);
    assert s2.svc == Service(2, false, true, false, false, 1, 0) && 2 in s2.unreaped && s2.clock == 0;
    RunTwo(c, s1, b, r);
    RunOn(c, Initial(), [a, r], [b, r]);
  }

  lemma {:induction false} RunOn(c: Config, s: System, a: seq<Event>, b: seq<Event>)
    requires CanRun(c, s, a) && CanRun(c, Run(c, s, a), b)
    ensures CanRun(c, s, a + b) && Run(c, s, a + b) == Run(c, Run(c, s, a), b)
    decreases |a|
  {
    if a == [] {
      assert a + b == b;
    } else {
      assert (a + b)[0] == a[0] && (a + b)[1..] == a[1..] + b;
      RunOn(c, Step(c, s, a[0]), a[1..], b);
    }
  }

  // What a service needs in order to miss the limit, from its configuration alone.
  predicate MayMissLimit(c: Config) {
    c.critical && c.crashCount == 1 && !c.period && !c.onDemand
  }

  /** The limit is looked at in every run if and only if the service is not one that counts crashes, is
      critical, and has a limit of one. */
  lemma LimitHoldsIff(c: Config)
    requires c.crashTime > 0 && c.crashCount > 0
    ensures (forall es, e | CanRun(c, Initial(), es) && CountsACrash(c, Run(c, Initial(), es), e) ::
               LimitIsLookedAt(c, Run(c, Initial(), es).svc.(pid := -1), e.around.now))
       <==> !MayMissLimit(c)
  {
    if MayMissLimit(c) {
      var es, e := LimitIsMissed(c);
    } else {
      forall es, e | CanRun(c, Initial(), es) && CountsACrash(c, Run(c, Initial(), es), e)
        ensures LimitIsLookedAt(c, Run(c, Initial(), es).svc.(pid := -1), e.around.now)
      {
        WhenTooMany(c, Run(c, Initial(), es).svc.(pid := -1), e.around.now);
        if !c.critical { LimitHolds(c, es, e); }
      }
    }
  }

  // ---------- what becomes of a service whose process has exited ----------

  // One more crash now is one too many: no limits are set, the first is already the last allowed, or the
  // count reaches the limit within the window.
  predicate OneTooMany(c: Config, s: Service, now: nat) {
    || c.crashTime <= 0 || c.crashCount <= 0
    || (if s.crashCnt == 0 then c.crashCount == 1
        else now - s.firstCrash <= c.crashTime && s.crashCnt + 1 >= c.crashCount)
  }

  // Nobody stopped it, nothing else is to start it, and it is of a kind that is started again.
  predicate ToBeRestarted(c: Config, s: Service) {
    && !s.invalid && !s.timer && !s.needStop && (c.once ==> s.needRestart) && !c.period && !c.onDemand
  }

  // The crash does not keep it from being started again at once: for a critical service it is not one too many,
  // or the reboot came back; for any other a restart was asked for, or it is not one too many.
  predicate CrashAllowed(c: Config, s: Service, u: Surroundings) {
    if c.critical then !OneTooMany(c, s, u.now) || u.rebootReturns
    else s.needRestart || !OneTooMany(c, s, u.now)
  }

  // The exit is that of the recorded process, at the end of a run.
  predicate ExitAfter(c: Config, es: seq<Event>, e: Event) {
    && CanRun(c, Initial(), es)
    && (var s := Run(c, Initial(), es); Enabled(s, e) && e.Exited? && e.pid == s.svc.pid)
  }

  lemma ReapRestarts(c: Config, s: Service, u: Surroundings)
    requires u.fork.Forked? ==> u.fork.pid > 0
    ensures var s' := Reap(c, s, u).0;
      && (s'.pid > 0 <==> ToBeRestarted(c, s) && CrashAllowed(c, s, u) && u.fork.Forked?)
      && (s'.pid > 0 ==> s'.pid == u.fork.pid && !s'.needRestart && !s'.needStop && !s'.invalid && !s'.timer)
      && (s'.pid <= 0 ==> s'.pid == -1)
  {
  }

  /** After the exit of the recorded process, in any run, the service is running again, as the new process, if
      and only if it is to be restarted, the crash does not forbid it, and the fork succeeds. */
  lemma RestartedIff(c: Config, es: seq<Event>, e: Event)
    requires ExitAfter(c, es, e)
    ensures var s := Run(c, Initial(), es);
      var s' := Step(c, s, e);
      && (s'.svc.pid > 0 <==> ToBeRestarted(c, s.svc) && CrashAllowed(c, s.svc, e.around) && e.around.fork.Forked?)
      && (s'.svc.pid > 0 ==> s'.svc.pid == e.around.fork.pid && s'.forks == s.forks + 1 && e.around.fork.pid in s'.live)
      && (s'.svc.pid <= 0 ==> s'.svc.pid == -1 && s'.forks == s.forks && s'.live == {})
  {
    RunKeepsOneChild(c, Initial(), es);
    var s := Run(c, Initial(), es);
    hide Reap, ToBeRestarted, CrashAllowed;
    ReapRestarts(c, s.svc, e.around);
    StepKeepsOneChild(c, s, e);
  }

  lemma ExitIsReap(c: Config, s: System, e: Event)
    requires Enabled(s, e) && e.Exited? && e.pid == s.svc.pid
    ensures var s' := Step(c, s, e); (s'.svc, s'.halted) == Reap(c, s.svc, e.around)
  {
    hide Reap;
  }

  // A timer is set, or was already, the system goes down, or nothing is left to start the service.
  predicate Otherwise(c: Config, s: Service, u: Surroundings, s': Service, down: bool) {
    var ordinary := !c.period && !c.onDemand && !c.critical;
    && (down <==> ToBeRestarted(c, s) && c.critical && OneTooMany(c, s, u.now) && !u.rebootReturns)
    && (s'.timer <==>
         || s.timer
         || (!s.invalid && !s.needStop && (c.once ==> s.needRestart) && u.timerOk
             && (c.period || (ordinary && !s.needRestart && OneTooMany(c, s, u.now)))))
    && (s'.invalid <==>
         || s.invalid
         || (ToBeRestarted(c, s) && CrashAllowed(c, s, u) && u.fork.NoExecutable?)
         || (!s.timer && !s.needStop && (c.once ==> s.needRestart) && !c.period && c.onDemand
             && c.console && !u.watchOk))
  }

  lemma ReapOtherwise(c: Config, s: Service, u: Surroundings)
    ensures Otherwise(c, s, u, Reap(c, s, u).0, Reap(c, s, u).1)
  {
    if c.period {} else if c.onDemand {} else {}
  }

  /** The other outcomes, in any run. */
  lemma OtherwiseIff(c: Config, es: seq<Event>, e: Event)
    requires ExitAfter(c, es, e)
    ensures var s := Run(c, Initial(), es);
      Otherwise(c, s.svc, e.around, Step(c, s, e).svc, Step(c, s, e).halted)
  {
    hide Otherwise, Reap;
    ReapOtherwise(c, Run(c, Initial(), es).svc, e.around);
    ExitIsReap(c, Run(c, Initial(), es), e);
  }

  // A stop that was asked for forgets the crashes, and so does a crash too many of a service that is not critical;
  // a crash outside the window starts it afresh, any other counted crash adds one.
  predicate Recounted(c: Config, s: Service, now: nat, s': Service) {
    if Counts(c, s) then
      if OneTooMany(c, s, now) && !c.critical then s'.crashCnt == 0
      else if s.crashCnt == 0 || now - s.firstCrash > c.crashTime then s'.crashCnt == 1 && s'.firstCrash == now
      else s'.crashCnt == s.crashCnt + 1 && s'.firstCrash == s.firstCrash
    else if !s.invalid && !s.timer && s.needStop then s'.crashCnt == 0 && !s'.needStop
    else if ToBeRestarted(c, s) && !c.critical && !s.needRestart then s'.crashCnt == 0
    else s'.crashCnt == s.crashCnt && s'.firstCrash == s.firstCrash
  }

  lemma ReapRecounts(c: Config, s: Service, u: Surroundings)
    ensures Recounted(c, s, u.now, Reap(c, s, u).0)
  {
    if Counts(c, s) {} else {}
  }

  /** The count of crashes after an exit, in any run. */
  lemma CountAfterExit(c: Config, es: seq<Event>, e: Event)
    requires ExitAfter(c, es, e)
    ensures var s := Run(c, Initial(), es);
      Recounted(c, s.svc, e.around.now, Step(c, s, e).svc)
  {
    hide Recounted, Reap;
    ReapRecounts(c, Run(c, Initial(), es).svc, e.around);
    ExitIsReap(c, Run(c, Initial(), es), e);
  }

  function StartCommands(es: seq<Event>): nat {
    if es == [] then 0 else (if es[0].StartCommand? then 1 else 0) + StartCommands(es[1..])
  }

  predicate NoRestartWanted(es: seq<Event>) {
    forall e | e in es :: !e.RestartWanted?
  }

  lemma OnceStep(c: Config, s: System, e: Event)
    requires c.once && !s.svc.timer && !s.svc.needRestart && Enabled(s, e) && !e.RestartWanted?
    ensures var s' := Step(c, s, e);
      && !s'.svc.timer && !s'.svc.needRestart
      && s'.forks <= s.forks + (if e.StartCommand? then 1 else 0)
  {
  }

  lemma {:induction false} OnceRuns(c: Config, s: System, es: seq<Event>)
    requires c.once && !s.svc.timer && !s.svc.needRestart && CanRun(c, s, es) && NoRestartWanted(es)
    ensures Run(c, s, es).forks <= s.forks + StartCommands(es)
    decreases |es|
  {
    if es != [] {
      hide Step;
      assert es[0] in es && forall e | e in es[1..] :: e in es;
      OnceStep(c, s, es[0]);
      OnceRuns(c, Step(c, s, es[0]), es[1..]);
    }
  }

  /** A one-shot service for which no restart is asked is never forked but by a start command. */
  lemma OneShotRunsOnce(c: Config, es: seq<Event>)
    requires c.once && CanRun(c, Initial(), es) && NoRestartWanted(es)
    ensures Run(c, Initial(), es).forks <= StartCommands(es)
  {
    OnceRuns(c, Initial(), es);
  }

  // Each process in turn exits, later than the crash time after the one before, and the next fork succeeds.
  predicate ExitsApart(c: Config, es: seq<Event>, pid: nat, last: int)
    decreases |es|
  {
    es == [] ||
    (es[0].Exited? && es[0].pid == pid && es[0].around.now - last > c.crashTime && es[0].around.fork.Forked?
     && ExitsApart(c, es[1..], es[0].around.fork.pid, es[0].around.now))
  }

  // An ordinary service that allows for more than one crash.
  predicate Ordinary(c: Config) {
    !c.once && !c.critical && !c.period && !c.onDemand && c.crashTime > 0 && c.crashCount > 1
  }

  // Running, with at most the one crash at the time given in its window.
  predicate Healthy(s: Service, last: int) {
    && s.pid > 0 && !s.invalid && !s.timer && !s.needStop && !s.needRestart
    && (s.crashCnt == 0 || (s.crashCnt == 1 && s.firstCrash == last))
  }

  lemma HealthyStep(c: Config, s: System, e: Event, last: int)
    requires Ordinary(c) && Healthy(s.svc, last) && Enabled(s, e) && e.Exited? && e.pid == s.svc.pid
    requires e.around.now - last > c.crashTime && e.around.fork.Forked?
    ensures var s' := Step(c, s, e);
      && Healthy(s'.svc, e.around.now) && s'.svc.pid == e.around.fork.pid
      && !s'.halted && s'.forks == s.forks + 1
  {
  }

  lemma {:induction false} StaysHealthy(c: Config, s: System, es: seq<Event>, last: int)
    requires Ordinary(c) && Healthy(s.svc, last) && !s.halted
    requires CanRun(c, s, es) && ExitsApart(c, es, s.svc.pid as nat, last)
    ensures var s' := Run(c, s, es); s'.svc.pid > 0 && !s'.halted && s'.forks == s.forks + |es|
    decreases |es|
  {
    if es != [] {
      hide Step;
      HealthyStep(c, s, es[0], last);
      StaysHealthy(c, Step(c, s, es[0]), es[1..], es[0].around.now);
    }
  }

  lemma FirstStart(c: Config, p: nat)
    requires p > 0
    ensures var start := StartCommand(Forked(p));
      && Enabled(Initial(), start)
      && (var s := Step(c, Initial(), start);
          Healthy(s.svc, -c.crashTime - 1) && !s.halted && s.svc.pid == p && s.forks == 1)
  {
  }

  /** An ordinary service, once started, is running again after each of any number of crashes that are further
      apart than the crash time. */
  lemma KeepsRunning(c: Config, p: nat, es: seq<Event>)
    requires Ordinary(c) && p > 0 && CanRun(c, Initial(), [StartCommand(Forked(p))] + es)
    requires ExitsApart(c, es, p, -c.crashTime - 1)
    ensures var s := Run(c, Initial(), [StartCommand(Forked(p))] + es);
      s.svc.pid > 0 && !s.halted && s.forks == 1 + |es|
  {
    hide Step, Enabled, ExitsApart, Healthy, Initial;
    var start := StartCommand(Forked(p));
    assert ([start] + es)[1..] == es && ([start] + es)[0] == start;
    FirstStart(c, p);
    StaysHealthy(c, Step(c, Initial(), start), es, -c.crashTime - 1);
  }

  // ---------- what start, stop and the timers report and do ----------

  /** A start succeeds exactly if the service is running afterwards; it forks only a service that was not running,
      and asks for the stop flag to be forgotten unless it gave up before. */
  lemma StartOutcome(s: Service, f: Fork)
    requires f.Forked? ==> f.pid > 0
    ensures var (s', ok) := Start(s, f);
      && (ok <==> s'.pid > 0)
      && (s'.pid > 0 <==> s.pid > 0 || (f.Forked? && !s.invalid))
      && (s'.pid != s.pid ==> s.pid <= 0 && f.Forked? && s'.pid == f.pid && !s'.needStop && !s'.needRestart)
      && (s'.invalid <==> s.invalid || (s.pid <= 0 && f.NoExecutable?))
  {
  }

  /** A stop succeeds exactly if the service is not recorded as running afterwards; only a stop of a running
      service clears its timer. */
  lemma StopOutcome(s: Service, killed: bool)
    ensures var (s', ok) := Stop(s, killed);
      && (ok <==> s'.pid <= 0) && (s'.pid <= 0 <==> s.pid <= 0 || killed)
      && s'.needStop && !s'.needRestart && (s'.timer <==> s.timer && s.pid <= 0)
  {
  }

  /** When the timer fires, in any run, the timer is gone and the service is running unless the start fails. */
  lemma TimerOutcome(c: Config, es: seq<Event>, f: Fork)
    requires CanRun(c, Initial(), es) && Enabled(Run(c, Initial(), es), Timer(f))
    ensures var s := Run(c, Initial(), es);
      var s' := Step(c, s, Timer(f));
      && !s'.svc.timer
      && (s'.svc.pid > 0 <==> s.svc.pid > 0 || (f.Forked? && !s.svc.invalid))
      && s'.forks == s.forks + (if s.svc.pid <= 0 && f.Forked? && !s.svc.invalid then 1 else 0)
  {
    StartOutcome(Run(c, Initial(), es).svc.(timer := false), f);
  }
}
