/** Registering, calling and unregistering the trace-id callback of the logger, as interleaved
    atomic steps of any number of threads.  Every read or write of the shared pointer and counter
    is one step; the relaxed atomics are taken as sequentially consistent. */
module CallbackGuard {
  import opened Basics

  type Function = nat
  type Thread = nat

  // Where a thread stands, with the local variables it will still read.
  datatype Pc =
    | Idle
    // in the trace-id section of a log call
    | Counting                         // saw a callback, will add one to the counter
    | Loading                          // counted, will copy the pointer
    | Checking(func: Option<Function>) // copied it, will look at the pointer once more
    | Ready(func: Option<Function>)    // will call its copy
    | Inside(func: Option<Function>)   // in the callback
    | Leaving                          // will take one off the counter
    // in a registration
    | Storing(func: Option<Function>)  // saw no callback, will store its own
    // in an unregistration
    | Clearing(func: Option<Function>) // saw its own callback, will clear the pointer
    | Waiting(func: Option<Function>)  // cleared it, spins on the counter

  datatype State = State(pointer: Option<Function>, count: int, threads: map<Thread, Pc>)

  datatype Action =
    | LogCheck | LogCount | LogLoad | LogRecheck | LogCall | LogReturn | LogUncount
    | Register(func: Option<Function>) | Store
    | Unregister(func: Option<Function>) | Clear | Spin

  datatype Event = Event(thread: Thread, action: Action)

  function Initial(ids: set<Thread>): State {
    State(None, 0, map t | t in ids :: Idle)
  }

  function Goto(s: State, t: Thread, pc: Pc): State {
    s.(threads := s.threads[t := pc])
  }

  // One atomic step; None when the thread is not at that point.
  function Step(s: State, e: Event): Option<State> {
    var t := e.thread;
    if t !in s.threads then None else
    match (s.threads[t], e.action)
    case (Idle, LogCheck) => Some(if s.pointer.Some? then Goto(s, t, Counting) else s)
    case (Counting, LogCount) => Some(Goto(s.(count := s.count + 1), t, Loading))
    case (Loading, LogLoad) => Some(Goto(s, t, Checking(s.pointer)))
    case (Checking(f), LogRecheck) => Some(Goto(s, t, if s.pointer.Some? then Ready(f) else Leaving))
    case (Ready(f), LogCall) => Some(Goto(s, t, Inside(f)))
    case (Inside(_), LogReturn) => Some(Goto(s, t, Leaving))
    case (Leaving, LogUncount) => Some(Goto(s.(count := s.count - 1), t, Idle))
    case (Idle, Register(f)) => Some(if s.pointer.Some? then s else Goto(s, t, Storing(f)))
    case (Storing(f), Store) => Some(Goto(s.(pointer := f), t, Idle))
    case (Idle, Unregister(f)) => Some(if s.pointer == f then Goto(s, t, Clearing(f)) else s)
    case (Clearing(f), Clear) => Some(Goto(s.(pointer := None), t, Waiting(f)))
    case (Waiting(_), Spin) => Some(if s.count == 0 then Goto(s, t, Idle) else s)
    case _ => None
  }

  function Run(s: State, es: seq<Event>): Option<State>
    decreases |es|
  {
    if es == [] then Some(s)
    else
      var next := Step(s, es[0]);
      if next.None? then None else Run(next.value, es[1..])
  }

  // The step makes f the registered callback.
  predicate Registers(s: State, e: Event, f: Function) {
    e.action == Store && e.thread in s.threads && s.threads[e.thread] == Storing(Some(f))
  }

  predicate NeverRegisters(s: State, es: seq<Event>, f: Function)
    decreases |es|
  {
    es == [] ||
    (!Registers(s, es[0], f) && (Step(s, es[0]).Some? ==> NeverRegisters(Step(s, es[0]).value, es[1..], f)))
  }

  // ---------- the counter counts the threads between its two updates ----------

  predicate Counted(pc: Pc) {
    pc.Loading? || pc.Checking? || pc.Ready? || pc.Inside? || pc.Leaving?
  }

  function Window(threads: map<Thread, Pc>): set<Thread> {
    set t | t in threads && Counted(threads[t])
  }

  predicate Inv(s: State) {
    s.count == |Window(s.threads)|
  }

  lemma WindowUpdate(threads: map<Thread, Pc>, t: Thread, pc: Pc)
    requires t in threads
    ensures |Window(threads[t := pc])|
         == |Window(threads)| - (if Counted(threads[t]) then 1 else 0) + (if Counted(pc) then 1 else 0)
  {
    var was, now := Window(threads), Window(threads[t := pc]);
    if Counted(pc) {
      assert now == (was - {t}) + {t};
    } else {
      assert now == was - {t};
    }
  }

  lemma StepKeepsInv(s: State, e: Event)
    requires Inv(s) && Step(s, e).Some?
    ensures Inv(Step(s, e).value)
  {
    var s' := Step(s, e).value;
    if e.thread in s'.threads && s'.threads != s.threads {
      WindowUpdate(s.threads, e.thread, s'.threads[e.thread]);
      assert s'.threads == s.threads[e.thread := s'.threads[e.thread]];
    }
  }

  lemma {:induction false} RunKeepsInv(s: State, es: seq<Event>)
    requires Inv(s) && Run(s, es).Some?
    ensures Inv(Run(s, es).value)
    decreases |es|
  {
    if es != [] {
      StepKeepsInv(s, es[0]);
      RunKeepsInv(Step(s, es[0]).value, es[1..]);
    }
  }

  lemma InitialInv(ids: set<Thread>)
    ensures Inv(Initial(ids))
  {
    assert Window(Initial(ids).threads) == {};
  }

  // ---------- unregistration is safe ----------

  // The thread is in f, or has it in hand for a call.
  predicate Holds(pc: Pc, f: Function) {
    (pc.Checking? || pc.Ready? || pc.Inside?) && pc.func == Some(f)
  }

  predicate Quiet(s: State, f: Function) {
    s.pointer != Some(f) && forall t :: t in s.threads ==> !Holds(s.threads[t], f)
  }

  lemma {:induction false} PointerStays(s: State, es: seq<Event>, f: Function)
    requires s.pointer != Some(f) && Run(s, es).Some? && NeverRegisters(s, es, f)
    ensures Run(s, es).value.pointer != Some(f)
    decreases |es|
  {
    if es != [] { PointerStays(Step(s, es[0]).value, es[1..], f); }
  }

  lemma {:induction false} QuietStays(s: State, es: seq<Event>, f: Function)
    requires Quiet(s, f) && Run(s, es).Some? && NeverRegisters(s, es, f)
    ensures Quiet(Run(s, es).value, f)
    decreases |es|
  {
    if es != [] {
      var s' := Step(s, es[0]).value;
      assert Quiet(s', f);
      QuietStays(s', es[1..], f);
    }
  }

  /** Whatever the threads did before: from the clearing step of an unregistration of f, through the
      spin that lets it return, to any later point, if no step registers f meanwhile then at that
      point no thread is in f or about to call it. */
  lemma UnregisterIsSafe(ids: set<Thread>, before: seq<Event>, during: seq<Event>, after: seq<Event>,
                         t: Thread, f: Function, s0: State, s1: State, s2: State, s3: State, s4: State)
    requires Run(Initial(ids), before) == Some(s0)
    requires t in s0.threads && s0.threads[t] == Clearing(Some(f)) && Step(s0, Event(t, Clear)) == Some(s1)
    requires Run(s1, during) == Some(s2) && NeverRegisters(s1, during, f)
    requires t in s2.threads && s2.threads[t] == Waiting(Some(f)) && Step(s2, Event(t, Spin)) == Some(s3)
    requires t in s3.threads && s3.threads[t] == Idle
    requires Run(s3, after) == Some(s4) && NeverRegisters(s3, after, f)
    ensures Quiet(s4, f)
  {
    InitialInv(ids);
    RunKeepsInv(Initial(ids), before);
    StepKeepsInv(s0, Event(t, Clear));
    RunKeepsInv(s1, during);
    PointerStays(s1, during, f);
    NobodyCounted(s2);
    assert Quiet(s3, f);
    QuietStays(s3, after, f);
  }

  lemma NobodyCounted(s: State)
    requires Inv(s) && s.count == 0
    ensures forall u :: u in s.threads ==> !Counted(s.threads[u])
  {
    forall u | u in s.threads ensures !Counted(s.threads[u]) {
      assert Window(s.threads) == {};
      assert u !in Window(s.threads);
    }
  }

  // ---------- the wait ends ----------

  // A thread inside the counted section gets out of it by its own steps alone.
  lemma GetsOut(s: State, t: Thread) returns (es: seq<Event>)
    requires t in s.threads && Counted(s.threads[t])
    ensures Run(s, es).Some?
    ensures Run(s, es).value == Goto(s.(count := s.count - 1), t, Idle)
    ensures UntilUncount(es, t) && forall e | e in es :: !Writes(e)
    decreases match s.threads[t]
      case Loading => 5
      case Checking(_) => 4
      case Ready(_) => 3
      case Inside(_) => 2
      case _ => 1
  {
    var e := Event(t, match s.threads[t]
                      case Loading => LogLoad
                      case Checking(_) => LogRecheck
                      case Ready(_) => LogCall
                      case Inside(_) => LogReturn
                      case _ => LogUncount);
    var s' := Step(s, e).value;
    if s.threads[t].Leaving? {
      es := [e];
      assert es[1..] == [];
    } else {
      var more := GetsOut(s', t);
      es := [e] + more;
      assert es[1..] == more;
      assert s'.threads[t := Idle] == s.threads[t := Idle];
    }
  }

  /** An unregistration cannot block for good: from every reachable state the counter can reach zero
      by letting the counted threads finish, without any further registration. */
  lemma {:induction false} WaitCanEnd(s: State) returns (es: seq<Event>)
    requires Inv(s)
    ensures Run(s, es).Some? && Run(s, es).value.count == 0
    ensures Run(s, es).value.pointer == s.pointer
    decreases |Window(s.threads)|
  {
    if s.count == 0 {
      es := [];
    } else {
      assert Window(s.threads) != {};
      var t :| t in Window(s.threads);
      var first := GetsOut(s, t);
      var s' := Run(s, first).value;
      WindowUpdate(s.threads, t, Idle);
      var rest := WaitCanEnd(s');
      RunAppend(s, first, rest);
      es := first + rest;
    }
  }

  lemma {:induction false} RunAppend(s: State, a: seq<Event>, b: seq<Event>)
    requires Run(s, a).Some?
    ensures Run(s, a + b) == Run(Run(s, a).value, b)
    decreases |a|
  {
    if a == [] {
      assert a + b == b;
    } else {
      assert (a + b)[0] == a[0] && (a + b)[1..] == a[1..] + b;
      RunAppend(Step(s, a[0]).value, a[1..], b);
    }
  }

  // ---------- calling nothing ----------

  predicate CallsNothing(s: State) {
    exists t :: t in s.threads && (s.threads[t] == Ready(None) || s.threads[t] == Inside(None))
  }

  // Two threads: the first logs, the second registers and unregisters.
  function Two(pointer: Option<Function>, count: int, logger: Pc, other: Pc): State {
    State(pointer, count, map[0 := logger, 1 := other])
  }

  lemma LoggerStep(s: State, a: Action)
    requires s.threads.Keys == {0, 1} && Step(s, Event(0, a)).Some?
    ensures var s' := Step(s, Event(0, a)).value;
      s' == Two(s'.pointer, s'.count, s'.threads[0], s.threads[1])
  {}

  lemma OtherStep(s: State, a: Action)
    requires s.threads.Keys == {0, 1} && Step(s, Event(1, a)).Some?
    ensures var s' := Step(s, Event(1, a)).value;
      s' == Two(s'.pointer, s'.count, s.threads[0], s'.threads[1])
  {}

  lemma OneMore(es: seq<Event>, s: State, e: Event) returns (more: seq<Event>)
    requires Run(Initial({0, 1}), es) == Some(s) && Step(s, e).Some?
    ensures more == es + [e] && Run(Initial({0, 1}), more) == Step(s, e)
  {
    more := es + [e];
    RunAppend(Initial({0, 1}), es, [e]);
    assert [e][1..] == [];
  }

  // A logger that has seen f.
  lemma Seen(f: Function) returns (es: seq<Event>)
    ensures Run(Initial({0, 1}), es) == Some(Two(Some(f), 0, Counting, Idle))
  {
    assert Initial({0, 1}) == Two(None, 0, Idle, Idle);
    es := OneMore([], Two(None, 0, Idle, Idle), Event(1, Register(Some(f))));
    OtherStep(Two(None, 0, Idle, Idle), Register(Some(f)));
    es := OneMore(es, Two(None, 0, Idle, Storing(Some(f))), Event(1, Store));
    OtherStep(Two(None, 0, Idle, Storing(Some(f))), Store);
    es := OneMore(es, Two(Some(f), 0, Idle, Idle), Event(0, LogCheck));
    LoggerStep(Two(Some(f), 0, Idle, Idle), LogCheck);
  }

  // And then f is unregistered behind its back.
  lemma SeenThenCleared(f: Function) returns (es: seq<Event>)
    ensures Run(Initial({0, 1}), es) == Some(Two(None, 0, Counting, Waiting(Some(f))))
  {
    es := Seen(f);
    es := OneMore(es, Two(Some(f), 0, Counting, Idle), Event(1, Unregister(Some(f))));
    OtherStep(Two(Some(f), 0, Counting, Idle), Unregister(Some(f)));
    es := OneMore(es, Two(Some(f), 0, Counting, Clearing(Some(f))), Event(1, Clear));
    OtherStep(Two(Some(f), 0, Counting, Clearing(Some(f))), Clear);
  }

  // The logger copies the empty pointer.
  lemma CopiedNothing(f: Function) returns (es: seq<Event>)
    ensures Run(Initial({0, 1}), es) == Some(Two(None, 1, Checking(None), Idle))
  {
    es := SeenThenCleared(f);
    es := OneMore(es, Two(None, 0, Counting, Waiting(Some(f))), Event(1, Spin));
    OtherStep(Two(None, 0, Counting, Waiting(Some(f))), Spin);
    es := OneMore(es, Two(None, 0, Counting, Idle), Event(0, LogCount));
    LoggerStep(Two(None, 0, Counting, Idle), LogCount);
    es := OneMore(es, Two(None, 1, Loading, Idle), Event(0, LogLoad));
    LoggerStep(Two(None, 1, Loading, Idle), LogLoad);
  }

  // The copy is not looked at again: a callback registered between the copy and the second look at
  // the pointer makes the thread call its empty copy.
  lemma EmptyCopyCanBeCalled(f: Function) returns (es: seq<Event>)
    ensures Run(Initial({0, 1}), es).Some? && CallsNothing(Run(Initial({0, 1}), es).value)
  {
    es := CopiedNothing(f);
    es := OneMore(es, Two(None, 1, Checking(None), Idle), Event(1, Register(Some(f))));
    OtherStep(Two(None, 1, Checking(None), Idle), Register(Some(f)));
    es := OneMore(es, Two(None, 1, Checking(None), Storing(Some(f))), Event(1, Store));
    OtherStep(Two(None, 1, Checking(None), Storing(Some(f))), Store);
    es := OneMore(es, Two(Some(f), 1, Checking(None), Idle), Event(0, LogRecheck));
    LoggerStep(Two(Some(f), 1, Checking(None), Idle), LogRecheck);
    assert Two(Some(f), 1, Ready(None), Idle).threads[0] == Ready(None);
  }

  // The step stores a callback while some thread holds an empty copy and has yet to look again.
  predicate Disturbs(s: State, e: Event) {
    && e.action == Store && e.thread in s.threads
    && s.threads[e.thread].Storing? && s.threads[e.thread].func.Some?
    && exists t :: t in s.threads && s.threads[t] == Checking(None)
  }

  predicate Undisturbed(s: State, es: seq<Event>)
    decreases |es|
  {
    es == [] || (!Disturbs(s, es[0]) && (Step(s, es[0]).Some? ==> Undisturbed(Step(s, es[0]).value, es[1..])))
  }

  // An empty copy is held only while the pointer is empty, and no call is made with one.
  predicate CopiesAreFresh(s: State) {
    && !CallsNothing(s)
    && forall t :: t in s.threads && s.threads[t] == Checking(None) ==> s.pointer == None
  }

  lemma StepStaysFresh(s: State, e: Event)
    requires CopiesAreFresh(s) && Step(s, e).Some? && !Disturbs(s, e)
    ensures CopiesAreFresh(Step(s, e).value)
  {
    assert forall t :: t in s.threads ==> s.threads[t] != Ready(None) && s.threads[t] != Inside(None);
  }

  lemma {:induction false} RunStaysFresh(s: State, es: seq<Event>)
    requires CopiesAreFresh(s) && Run(s, es).Some? && Undisturbed(s, es)
    ensures CopiesAreFresh(Run(s, es).value)
    decreases |es|
  {
    if es != [] {
      StepStaysFresh(s, es[0]);
      RunStaysFresh(Step(s, es[0]).value, es[1..]);
    }
  }

  lemma InitialIsFresh(ids: set<Thread>)
    ensures CopiesAreFresh(Initial(ids))
  {
  }

  // After a store that disturbs, the thread with the empty copy needs one step to get to its call.
  lemma DisturbedCallsNothing(s: State, e: Event) returns (t: Thread)
    requires Step(s, e).Some? && Disturbs(s, e)
    ensures var s' := Step(s, e).value;
      Step(s', Event(t, LogRecheck)).Some? && CallsNothing(Step(s', Event(t, LogRecheck)).value)
  {
    t :| t in s.threads && s.threads[t] == Checking(None);
    var s'' := Step(Step(s, e).value, Event(t, LogRecheck)).value;
    assert s''.threads[t] == Ready(None);
  }

  // Some thread could, by the next look at the pointer, be about to call an empty copy after n steps.
  predicate EmptyCallAfter(s: State, es: seq<Event>, n: nat, t: Thread)
    requires n <= |es|
  {
    var run := Run(s, es[..n] + [Event(t, LogRecheck)]);
    run.Some? && CallsNothing(run.value)
  }

  lemma {:induction false} FirstDisturbance(s: State, es: seq<Event>) returns (n: nat)
    requires Run(s, es).Some? && !Undisturbed(s, es)
    ensures n < |es| && Run(s, es[..n]).Some? && Disturbs(Run(s, es[..n]).value, es[n])
    ensures Step(Run(s, es[..n]).value, es[n]).Some?
    decreases |es|
  {
    if Disturbs(s, es[0]) {
      n := 0;
      assert es[..0] == [];
    } else {
      n := FirstDisturbance(Step(s, es[0]).value, es[1..]);
      n := n + 1;
      assert es[..n][0] == es[0] && es[..n][1..] == es[1..][..n - 1];
    }
  }

  lemma {:induction false} FrontIsUndisturbed(s: State, es: seq<Event>, n: nat, e: Event)
    requires Undisturbed(s, es) && n <= |es| && Run(s, es[..n] + [e]).Some? && e.action != Store
    ensures Undisturbed(s, es[..n] + [e])
    decreases n
  {
    var front := es[..n] + [e];
    if n == 0 {
      assert front == [e] && [e][1..] == [];
    } else {
      assert front[0] == es[0] && front[1..] == es[1..][..n - 1] + [e];
      FrontIsUndisturbed(Step(s, es[0]).value, es[1..], n - 1, e);
    }
  }

  lemma NoEmptyCall(ids: set<Thread>, es: seq<Event>, n: nat, t: Thread)
    requires Run(Initial(ids), es).Some? && Undisturbed(Initial(ids), es) && n <= |es|
    ensures !EmptyCallAfter(Initial(ids), es, n, t)
  {
    hide Run, Undisturbed, CallsNothing, Initial;
    var more := es[..n] + [Event(t, LogRecheck)];
    if Run(Initial(ids), more).Some? {
      InitialIsFresh(ids);
      FrontIsUndisturbed(Initial(ids), es, n, Event(t, LogRecheck));
      RunStaysFresh(Initial(ids), more);
    }
  }

  lemma RunOneMore(s: State, es: seq<Event>, e: Event)
    requires Run(s, es).Some?
    ensures Run(s, es + [e]) == Step(Run(s, es).value, e)
  {
    RunAppend(s, es, [e]);
    assert [e][1..] == [];
  }

  lemma SomeEmptyCall(s: State, es: seq<Event>) returns (n: nat, t: Thread)
    requires Run(s, es).Some? && !Undisturbed(s, es)
    ensures n <= |es| && EmptyCallAfter(s, es, n, t)
  {
    hide Undisturbed, Step, Disturbs, CallsNothing;
    n := FirstDisturbance(s, es);
    t := DisturbedCallsNothing(Run(s, es[..n]).value, es[n]);
    RunOneMore(s, es[..n], es[n]);
    assert es[..n + 1] == es[..n] + [es[n]];
    RunOneMore(s, es[..n + 1], Event(t, LogRecheck));
    n := n + 1;
  }

  /** No thread can get to a call of an empty copy at any point of a run, if and only if no callback is
      stored while a thread holds an empty copy that it has yet to look at again. */
  lemma EmptyCallsIff(ids: set<Thread>, es: seq<Event>)
    requires Run(Initial(ids), es).Some?
    ensures (forall n: nat, t | n <= |es| :: !EmptyCallAfter(Initial(ids), es, n, t))
       <==> Undisturbed(Initial(ids), es)
  {
    hide Run, Undisturbed, EmptyCallAfter;
    if Undisturbed(Initial(ids), es) {
      forall n: nat, t | n <= |es| ensures !EmptyCallAfter(Initial(ids), es, n, t) {
        NoEmptyCall(ids, es, n, t);
      }
    } else {
      var n, t := SomeEmptyCall(Initial(ids), es);
    }
  }

  /** In particular no undisturbed run ever calls an empty copy. */
  lemma UndisturbedCallsNothing(ids: set<Thread>, es: seq<Event>)
    requires Run(Initial(ids), es).Some? && Undisturbed(Initial(ids), es)
    ensures !CallsNothing(Run(Initial(ids), es).value)
  {
    InitialIsFresh(ids);
    RunStaysFresh(Initial(ids), es);
  }

  // Every store happens while no thread is counted.
  predicate StoresWhenIdle(s: State, es: seq<Event>)
    decreases |es|
  {
    es == [] ||
    ((es[0].action == Store ==> s.count == 0)
     && (Step(s, es[0]).Some? ==> StoresWhenIdle(Step(s, es[0]).value, es[1..])))
  }

  // Registrations kept out of the counted sections disturb nobody.
  lemma {:induction false} IdleStoresDisturbNobody(s: State, es: seq<Event>)
    requires Inv(s) && Run(s, es).Some? && StoresWhenIdle(s, es)
    ensures Undisturbed(s, es)
    decreases |es|
  {
    if es != [] {
      StepKeepsInv(s, es[0]);
      if es[0].action == Store { NobodyCounted(s); }
      IdleStoresDisturbNobody(Step(s, es[0]).value, es[1..]);
    }
  }

  /** With registrations kept out of the counted sections no thread ever calls an empty copy. */
  lemma IdleStoresAreEnough(s: State, es: seq<Event>)
    requires Inv(s) && CopiesAreFresh(s)
    requires Run(s, es).Some? && StoresWhenIdle(s, es)
    ensures !CallsNothing(Run(s, es).value)
  {
    IdleStoresDisturbNobody(s, es);
    RunStaysFresh(s, es);
  }

  // ---------- a registered callback is called ----------

  // The functions that thread t gets into along a run, in order.
  function Entered(s: State, es: seq<Event>, t: Thread): seq<Option<Function>>
    requires t in s.threads && Run(s, es).Some?
    decreases |es|
  {
    if es == [] then []
    else
      var s' := Step(s, es[0]).value;
      (if s'.threads[t].Inside? && !s.threads[t].Inside? then [s'.threads[t].func] else []) + Entered(s', es[1..], t)
  }

  // Up to here the thread has been inside x: at some point of the run it stood there.
  predicate WasInside(s: State, es: seq<Event>, t: Thread, x: Option<Function>) {
    exists n | 0 <= n <= |es| :: InsideAfter(s, es[..n], t, x)
  }

  predicate InsideAfter(s: State, es: seq<Event>, t: Thread, x: Option<Function>) {
    var run := Run(s, es);
    run.Some? && t in run.value.threads && run.value.threads[t] == Inside(x)
  }

  // The pointer just before the first e of the run.
  function PointerAt(s: State, es: seq<Event>, e: Event): Option<Function>
    requires Run(s, es).Some? && e in es
    decreases |es|
  {
    if es[0] == e then s.pointer else PointerAt(Step(s, es[0]).value, es[1..], e)
  }

  // The run ends with the first step in which t takes one off the counter.
  predicate UntilUncount(es: seq<Event>, t: Thread) {
    es != [] && forall i | 0 <= i < |es| :: es[i] == Event(t, LogUncount) <==> i == |es| - 1
  }

  lemma RestUntilUncount(es: seq<Event>, t: Thread)
    requires UntilUncount(es, t) && es[0] != Event(t, LogUncount)
    ensures |es| > 1 && UntilUncount(es[1..], t)
    ensures forall e | e in es :: e == es[0] || e in es[1..]
  {
    assert forall i | 0 <= i < |es| - 1 :: es[1..][i] == es[i + 1];
  }

  // A step of another thread leaves t where it is.
  lemma OthersStep(s: State, e: Event, t: Thread)
    requires t in s.threads && Step(s, e).Some? && e.thread != t
    ensures t in Step(s, e).value.threads && Step(s, e).value.threads[t] == s.threads[t]
  {
  }

  lemma {:induction false} FromInside(s: State, es: seq<Event>, t: Thread)
    requires t in s.threads && (s.threads[t].Inside? || s.threads[t].Leaving?)
    requires Run(s, es).Some? && UntilUncount(es, t)
    ensures Entered(s, es, t) == []
    decreases |es|
  {
    if es[0] == Event(t, LogUncount) {
      assert es[1..] == [];
    } else {
      RestUntilUncount(es, t);
      FromInside(Step(s, es[0]).value, es[1..], t);
    }
  }

  lemma {:induction false} FromReady(s: State, es: seq<Event>, t: Thread)
    requires t in s.threads && s.threads[t].Ready? && Run(s, es).Some? && UntilUncount(es, t)
    ensures Entered(s, es, t) == [s.threads[t].func]
    decreases |es|
  {
    assert Step(s, es[0]).Some?;
    RestUntilUncount(es, t);
    var s' := Step(s, es[0]).value;
    if es[0].thread == t {
      FromInside(s', es[1..], t);
    } else {
      OthersStep(s, es[0], t);
      FromReady(s', es[1..], t);
    }
  }

  lemma {:induction false} FromChecking(s: State, es: seq<Event>, t: Thread)
    requires t in s.threads && s.threads[t].Checking? && Run(s, es).Some? && UntilUncount(es, t)
    ensures Event(t, LogRecheck) in es
    ensures Entered(s, es, t)
         == if PointerAt(s, es, Event(t, LogRecheck)).Some? then [s.threads[t].func] else []
    decreases |es|
  {
    assert Step(s, es[0]).Some?;
    RestUntilUncount(es, t);
    var s' := Step(s, es[0]).value;
    if es[0].thread != t {
      OthersStep(s, es[0], t);
      FromChecking(s', es[1..], t);
    } else if s.pointer.Some? {
      FromReady(s', es[1..], t);
    } else {
      FromInside(s', es[1..], t);
    }
  }

  lemma {:induction false} FromLoading(s: State, es: seq<Event>, t: Thread)
    requires t in s.threads && s.threads[t] == Loading && Run(s, es).Some? && UntilUncount(es, t)
    ensures Event(t, LogLoad) in es && Event(t, LogRecheck) in es
    ensures Entered(s, es, t)
         == if PointerAt(s, es, Event(t, LogRecheck)).Some? then [PointerAt(s, es, Event(t, LogLoad))] else []
    decreases |es|
  {
    assert Step(s, es[0]).Some?;
    RestUntilUncount(es, t);
    var s' := Step(s, es[0]).value;
    if es[0].thread != t {
      OthersStep(s, es[0], t);
      FromLoading(s', es[1..], t);
    } else {
      FromChecking(s', es[1..], t);
    }
  }

  lemma InsideLater(s: State, es: seq<Event>, n: nat, t: Thread, x: Option<Function>)
    requires 1 <= n <= |es| && Step(s, es[0]).Some?
    ensures InsideAfter(s, es[..n], t, x) <==> InsideAfter(Step(s, es[0]).value, es[1..][..n - 1], t, x)
  {
    hide Step;
    assert es[..n][0] == es[0] && es[..n][1..] == es[1..][..n - 1];
  }

  lemma WasInsideStep(s: State, es: seq<Event>, t: Thread, x: Option<Function>)
    requires t in s.threads && es != [] && Step(s, es[0]).Some?
    ensures WasInside(s, es, t, x)
       <==> s.threads[t] == Inside(x) || WasInside(Step(s, es[0]).value, es[1..], t, x)
  {
    hide Step;
    assert es[..0] == [] && (InsideAfter(s, [], t, x) <==> s.threads[t] == Inside(x));
    hide InsideAfter;
    var s' := Step(s, es[0]).value;
    if n :| 0 <= n <= |es| && InsideAfter(s, es[..n], t, x) {
      if n > 0 { InsideLater(s, es, n, t, x); }
    }
    if n :| 0 <= n <= |es[1..]| && InsideAfter(s', es[1..][..n], t, x) {
      InsideLater(s, es, n + 1, t, x);
    }
  }

  lemma {:induction false} EnteredMeans(s: State, es: seq<Event>, t: Thread, x: Option<Function>)
    requires t in s.threads && Run(s, es).Some?
    ensures WasInside(s, es, t, x) <==> s.threads[t] == Inside(x) || x in Entered(s, es, t)
    decreases |es|
  {
    if es == [] {
      assert es[..0] == [] && (InsideAfter(s, [], t, x) <==> s.threads[t] == Inside(x));
    } else {
      EnteredMeans(Step(s, es[0]).value, es[1..], t, x);
      hide WasInside;
      WasInsideStep(s, es, t, x);
    }
  }

  /** From the step that counts a thread to the step that uncounts it: it has been inside the function that
      it copied, and inside no other, if and only if the pointer was not empty at its second look. */
  lemma CalledIffNotEmpty(s: State, es: seq<Event>, t: Thread, x: Option<Function>)
    requires t in s.threads && s.threads[t] == Counting
    requires Run(s, es).Some? && es != [] && es[0] == Event(t, LogCount) && UntilUncount(es, t)
    ensures Event(t, LogLoad) in es && Event(t, LogRecheck) in es
    ensures WasInside(s, es, t, x)
       <==> x == PointerAt(s, es, Event(t, LogLoad)) && PointerAt(s, es, Event(t, LogRecheck)).Some?
    ensures |Entered(s, es, t)| == if PointerAt(s, es, Event(t, LogRecheck)).Some? then 1 else 0
  {
    RestUntilUncount(es, t);
    FromLoading(Step(s, es[0]).value, es[1..], t);
    EnteredMeans(s, es, t, x);
  }

  // f is registered, and nobody is about to write the pointer.
  predicate Settled(s: State, f: Function) {
    s.pointer == Some(f) && forall t | t in s.threads :: !Writing(s.threads[t])
  }

  lemma StaysSettled(s: State, e: Event, f: Function)
    requires Settled(s, f) && Step(s, e).Some? && e.action != Unregister(Some(f))
    ensures Settled(Step(s, e).value, f)
  {
  }

  lemma {:induction false} SettledAt(s: State, es: seq<Event>, f: Function, e: Event)
    requires Settled(s, f) && Run(s, es).Some? && e in es
    requires forall a | a in es :: a.action != Unregister(Some(f))
    ensures PointerAt(s, es, e) == Some(f)
    decreases |es|
  {
    if es[0] != e {
      assert es[0] in es && forall a | a in es[1..] :: a in es;
      StaysSettled(s, es[0], f);
      SettledAt(Step(s, es[0]).value, es[1..], f, e);
    }
  }

  /** While f is registered and nobody unregisters it, each log call, from Idle to Idle, gets into f once and
      into nothing else. */
  lemma {:induction false} CalledOnce(s: State, es: seq<Event>, t: Thread, f: Function)
    requires t in s.threads && (s.threads[t] == Idle || s.threads[t] == Counting) && Settled(s, f)
    requires Run(s, es).Some? && UntilUncount(es, t)
    requires forall a | a in es :: a.action != Unregister(Some(f))
    ensures Entered(s, es, t) == [Some(f)]
    decreases |es|
  {
    assert Step(s, es[0]).Some? && es[0] in es;
    RestUntilUncount(es, t);
    var s' := Step(s, es[0]).value;
    StaysSettled(s, es[0], f);
    if s'.threads[t] == Loading {
      FromLoading(s', es[1..], t);
      SettledAt(s', es[1..], f, Event(t, LogLoad));
      SettledAt(s', es[1..], f, Event(t, LogRecheck));
    } else {
      CalledOnce(s', es[1..], t, f);
    }
  }

  // Such a call is possible, and leaves everything as it was; without a callback nothing is done at all.
  lemma CallAlone(s: State, t: Thread) returns (es: seq<Event>)
    requires t in s.threads && s.threads[t] == Idle
    ensures Run(s, es) == Some(s) && es != [] && es[0] == Event(t, LogCheck)
    ensures Entered(s, es, t) == if s.pointer.Some? then [s.pointer] else []
    ensures s.pointer.Some? ==> UntilUncount(es, t)
    ensures s.pointer.None? ==> |es| == 1
  {
    var check := Event(t, LogCheck);
    var s' := Step(s, check).value;
    if s.pointer.None? {
      es := [check];
      assert es[1..] == [];
    } else {
      var count := Event(t, LogCount);
      var s'' := Step(s', count).value;
      var inside := GoesThrough(s'', t);
      es := [check] + ([count] + inside);
      assert es[1..] == [count] + inside && ([count] + inside)[1..] == inside;
      assert s''.threads[t := Idle] == s.threads;
      FirstOfAll([count], inside, t);
      FirstOfAll([check], [count] + inside, t);
    }
  }

  lemma FirstOfAll(first: seq<Event>, rest: seq<Event>, t: Thread)
    requires |first| == 1 && first[0] != Event(t, LogUncount) && UntilUncount(rest, t)
    ensures UntilUncount(first + rest, t)
  {
  }

  // From the counted point on without interruption.
  lemma GoesThrough(s: State, t: Thread) returns (es: seq<Event>)
    requires t in s.threads && s.threads[t] == Loading && s.pointer.Some?
    ensures Run(s, es) == Some(Goto(s.(count := s.count - 1), t, Idle)) && UntilUncount(es, t)
    ensures Entered(s, es, t) == [s.pointer]
  {
    es := GetsOut(s, t);
    FromLoading(s, es, t);
    UnwrittenAt(s, es, Event(t, LogLoad));
    UnwrittenAt(s, es, Event(t, LogRecheck));
  }

  predicate Writes(e: Event) {
    e.action == Store || e.action == Clear
  }

  lemma {:induction false} UnwrittenAt(s: State, es: seq<Event>, e: Event)
    requires Run(s, es).Some? && e in es && forall a | a in es :: !Writes(a)
    ensures PointerAt(s, es, e) == s.pointer
    decreases |es|
  {
    if es[0] != e {
      assert es[0] in es && forall a | a in es[1..] :: a in es;
      UnwrittenAt(Step(s, es[0]).value, es[1..], e);
    }
  }

  // ---------- registrations and unregistrations of several threads ----------

  // The thread has looked at the pointer and will write it.
  predicate Writing(pc: Pc) {
    pc.Storing? || pc.Clearing?
  }

  // What the thread saw is still so.
  predicate UpToDate(pc: Pc, pointer: Option<Function>) {
    (pc.Storing? ==> pointer == None) && (pc.Clearing? ==> pointer == pc.func)
  }

  // Some thread will write over what it has not seen: a store over another callback, or a clearing of
  // what is not, or no longer, its own.
  predicate WritesBlindly(s: State) {
    exists t :: t in s.threads && !UpToDate(s.threads[t], s.pointer)
  }

  // The step changes the pointer while another thread has yet to write it.
  predicate Overlaps(s: State, e: Event) {
    && Step(s, e).Some? && Step(s, e).value.pointer != s.pointer
    && exists t :: t in s.threads && t != e.thread && Writing(s.threads[t])
  }

  predicate NoOverlap(s: State, es: seq<Event>)
    decreases |es|
  {
    es == [] || (!Overlaps(s, es[0]) && (Step(s, es[0]).Some? ==> NoOverlap(Step(s, es[0]).value, es[1..])))
  }

  lemma WritesStayUpToDate(s: State, e: Event)
    requires !WritesBlindly(s) && Step(s, e).Some?
    ensures WritesBlindly(Step(s, e).value) <==> Overlaps(s, e)
  {
    var s' := Step(s, e).value;
    if Overlaps(s, e) {
      var t :| t in s.threads && t != e.thread && Writing(s.threads[t]);
      assert UpToDate(s.threads[t], s.pointer);
      assert s'.threads[t] == s.threads[t];
    } else {
      forall t | t in s'.threads ensures UpToDate(s'.threads[t], s'.pointer) {
        assert UpToDate(s.threads[t], s.pointer);
      }
    }
  }

  lemma {:induction false} WritesStayUpToDateInRuns(s: State, es: seq<Event>, n: nat)
    requires !WritesBlindly(s) && Run(s, es).Some? && NoOverlap(s, es) && n <= |es|
    ensures Run(s, es[..n]).Some? && !WritesBlindly(Run(s, es[..n]).value)
    decreases n
  {
    if n == 0 {
      assert es[..0] == [];
    } else {
      WritesStayUpToDate(s, es[0]);
      assert es[..n][0] == es[0] && es[..n][1..] == es[1..][..n - 1];
      WritesStayUpToDateInRuns(Step(s, es[0]).value, es[1..], n - 1);
    }
  }

  lemma {:induction false} FirstOverlap(s: State, es: seq<Event>) returns (n: nat)
    requires !WritesBlindly(s) && Run(s, es).Some? && !NoOverlap(s, es)
    ensures n <= |es| && Run(s, es[..n]).Some? && WritesBlindly(Run(s, es[..n]).value)
    decreases |es|
  {
    WritesStayUpToDate(s, es[0]);
    if Overlaps(s, es[0]) {
      n := 1;
      assert es[..1] == [es[0]] && [es[0]][1..] == [];
    } else {
      n := FirstOverlap(Step(s, es[0]).value, es[1..]);
      n := n + 1;
      assert es[..n][0] == es[0] && es[..n][1..] == es[1..][..n - 1];
    }
  }

  /** At no point of a run is a thread about to write the pointer over what it has not seen, if and only if
      no step changes the pointer while another thread has yet to write it. */
  lemma BlindWritesIff(ids: set<Thread>, es: seq<Event>)
    requires Run(Initial(ids), es).Some?
    ensures (forall n: nat | n <= |es| ::
               Run(Initial(ids), es[..n]).Some? && !WritesBlindly(Run(Initial(ids), es[..n]).value))
       <==> NoOverlap(Initial(ids), es)
  {
    var s := Initial(ids);
    if NoOverlap(s, es) {
      forall n: nat | n <= |es| ensures Run(s, es[..n]).Some? && !WritesBlindly(Run(s, es[..n]).value) {
        WritesStayUpToDateInRuns(s, es, n);
      }
    } else {
      var n := FirstOverlap(s, es);
    }
  }

  // Two threads saw no callback, and one has stored f.
  lemma BothSawNothing(f: Function, g: Function) returns (es: seq<Event>)
    ensures es == [Event(0, Register(Some(f))), Event(1, Register(Some(g))), Event(0, Store)]
    ensures Run(Initial({0, 1}), es) == Some(Two(Some(f), 0, Idle, Storing(Some(g))))
  {
    var s := Two(None, 0, Idle, Idle);
    assert Initial({0, 1}) == s && Run(s, []) == Some(s);
    hide Run;
    LoggerStep(s, Register(Some(f)));
    es := OneMore([], s, Event(0, Register(Some(f))));
    OtherStep(Two(None, 0, Storing(Some(f)), Idle), Register(Some(g)));
    es := OneMore(es, Two(None, 0, Storing(Some(f)), Idle), Event(1, Register(Some(g))));
    LoggerStep(Two(None, 0, Storing(Some(f)), Storing(Some(g))), Store);
    es := OneMore(es, Two(None, 0, Storing(Some(f)), Storing(Some(g))), Event(0, Store));
  }

  // Both registrations succeed, and the later store takes the place of the other.
  lemma BothRegister(f: Function, g: Function) returns (es: seq<Event>)
    ensures es == [Event(0, Register(Some(f))), Event(1, Register(Some(g))), Event(0, Store), Event(1, Store)]
    ensures Run(Initial({0, 1}), es) == Some(Two(Some(g), 0, Idle, Idle))
  {
    es := BothSawNothing(f, g);
    hide Run;
    OtherStep(Two(Some(f), 0, Idle, Storing(Some(g))), Store);
    es := OneMore(es, Two(Some(f), 0, Idle, Storing(Some(g))), Event(1, Store));
  }

  // An unregistration of f is about to clear the callback g that has been stored meanwhile.
  lemma AboutToClearAnother(f: Function, g: Function) returns (es: seq<Event>)
    ensures Run(Initial({0, 1}), es) == Some(Two(Some(g), 0, Clearing(Some(f)), Idle))
  {
    es := BothSawNothing(f, g);
    hide Run;
    var s3, s4 := Two(Some(f), 0, Idle, Storing(Some(g))), Two(Some(f), 0, Clearing(Some(f)), Storing(Some(g)));
    LoggerStep(s3, Unregister(Some(f)));
    es := OneMore(es, s3, Event(0, Unregister(Some(f))));
    OtherStep(s4, Store);
    es := OneMore(es, s4, Event(1, Store));
  }

  // And does.
  lemma ClearsAnother(f: Function, g: Function) returns (es: seq<Event>, more: seq<Event>)
    ensures Run(Initial({0, 1}), es) == Some(Two(Some(g), 0, Clearing(Some(f)), Idle))
    ensures more == es + [Event(0, Clear)]
    ensures Run(Initial({0, 1}), more) == Some(Two(None, 0, Waiting(Some(f)), Idle))
  {
    es := AboutToClearAnother(f, g);
    hide Run;
    LoggerStep(Two(Some(g), 0, Clearing(Some(f)), Idle), Clear);
    more := OneMore(es, Two(Some(g), 0, Clearing(Some(f)), Idle), Event(0, Clear));
  }
}
