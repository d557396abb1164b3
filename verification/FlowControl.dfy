/** The per-process flow control of the logger: one call as the source runs it, and any number of
    calls as interleaved atomic steps.  The relaxed atomics are taken as sequentially consistent,
    and the two counters as unbounded (Within shows how far the byte counter can get). */
module FlowControl {
  import opened Basics

  // The quota the process is entitled to and the longest message; times are in nanoseconds.
  datatype Config = Config(quota: nat, longest: nat)

  const PERIOD: nat := 1_000_000_000

  // The static variables.
  datatype Shared = Shared(first: bool, quota: nat, start: nat, sum: nat, dropped: nat)

  // Where a call stands, with the local values it will still read.
  datatype Pc =
    | Idle
    | SettingQuota(len: nat, now: nat)               // was the very first to enter
    | ReadingStart(len: nat, now: nat)
    | Exchanging(len: nat, now: nat)                 // a new period has begun
    | Stamping(len: nat, now: nat, taken: nat)
    | Restarting(len: nat, now: nat, taken: nat)
    | ReadingSum(len: nat)
    | Comparing(len: nat, seen: nat)
    | Dropping(len: nat)
    | Adding(len: nat)

  // How a call ended: it opened a period and took the drop count, was let through, or was refused.
  datatype Outcome = NewPeriod(len: nat, now: nat, reported: nat) | Admitted(len: nat) | Refused

  datatype State = State(shared: Shared, calls: seq<Pc>, history: seq<Outcome>)

  datatype Event = Enter(call: nat, len: nat, now: nat) | Advance(call: nat)

  function Fresh(): Shared {
    Shared(false, 0, 0, 0, 0)
  }

  function Initial(n: nat): State {
    State(Fresh(), seq(n, i => Idle), [])
  }

  // The next atomic access of a call that is under way.
  function Access(c: Config, g: Shared, pc: Pc): (Shared, Pc, Option<Outcome>)
    requires !pc.Idle?
  {
    match pc
    case SettingQuota(len, now) => (g.(quota := c.quota), ReadingStart(len, now), None)
    case ReadingStart(len, now) =>
      (g, if now > g.start + PERIOD then Exchanging(len, now) else ReadingSum(len), None)
    case Exchanging(len, now) => (g.(dropped := 0), Stamping(len, now, g.dropped), None)
    case Stamping(len, now, taken) => (g.(start := now), Restarting(len, now, taken), None)
    case Restarting(len, now, taken) => (g.(sum := len), Idle, Some(NewPeriod(len, now, taken)))
    case ReadingSum(len) => (g, Comparing(len, g.sum), None)
    case Comparing(len, seen) => (g, if seen > g.quota then Dropping(len) else Adding(len), None)
    case Dropping(len) => (g.(dropped := g.dropped + 1), Idle, Some(Refused))
    case Adding(len) => (g.(sum := g.sum + len), Idle, Some(Admitted(len)))
  }

  function Log(h: seq<Outcome>, o: Option<Outcome>): seq<Outcome> {
    if o.None? then h else h + [o.value]
  }

  function Step(c: Config, s: State, e: Event): Option<State> {
    if e.call >= |s.calls| then None else
    match e
    case Enter(i, len, now) =>
      if !s.calls[i].Idle? || len > c.longest then None
      else Some(s.(shared := s.shared.(first := true),
                   calls := s.calls[i := if s.shared.first then ReadingStart(len, now)
                                         else SettingQuota(len, now)]))
    case Advance(i) =>
      if s.calls[i].Idle? then None
      else
        var (g, pc, out) := Access(c, s.shared, s.calls[i]);
        Some(State(g, s.calls[i := pc], Log(s.history, out)))
  }

  function Run(c: Config, s: State, es: seq<Event>): Option<State>
    decreases |es|
  {
    if es == [] then Some(s)
    else
      var next := Step(c, s, es[0]);
      if next.None? then None else Run(c, next.value, es[1..])
  }

  // ---------- what the history says ----------

  // What the caller sees: the drop count, 0 or -1.
  function Returned(o: Outcome): int {
    match o
    case NewPeriod(_, _, reported) => reported
    case Admitted(_) => 0
    case Refused => -1
  }

  // How often callers were told not to print.
  function Refusals(h: seq<Outcome>): nat {
    if h == [] then 0 else Refusals(h[..|h|-1]) + (if Returned(h[|h|-1]) == -1 then 1 else 0)
  }

  // The drop counts that callers were told, all together.
  function Reported(h: seq<Outcome>): nat {
    if h == [] then 0 else Reported(h[..|h|-1]) + (if Returned(h[|h|-1]) > 0 then Returned(h[|h|-1]) else 0)
  }

  // The bytes let through since the last call that opened a period, that call's included.
  function InPeriod(h: seq<Outcome>): nat {
    if h == [] then 0
    else match h[|h|-1]
      case NewPeriod(len, _, _) => len
      case Admitted(len) => InPeriod(h[..|h|-1]) + len
      case Refused => InPeriod(h[..|h|-1])
  }

  // ---------- sums over the calls under way ----------

  // Drop counts taken out of the counter and not yet returned.
  function Taken(pc: Pc): nat {
    if pc.Stamping? || pc.Restarting? then pc.taken else 0
  }

  // Bytes of a call that may still be added to the sum.
  function Pending(c: Config, pc: Pc): nat {
    if pc.Adding? || (pc.Comparing? && pc.seen <= c.quota) then pc.len else 0
  }

  function Sum(f: Pc -> nat, calls: seq<Pc>): nat {
    if calls == [] then 0 else f(calls[0]) + Sum(f, calls[1..])
  }

  lemma {:induction false} SumUpdate(f: Pc -> nat, calls: seq<Pc>, i: nat, pc: Pc)
    requires i < |calls|
    ensures Sum(f, calls[i := pc]) + f(calls[i]) == Sum(f, calls) + f(pc)
  {
    var now := calls[i := pc];
    if i == 0 {
      assert now[1..] == calls[1..];
    } else {
      assert now[1..] == calls[1..][i - 1 := pc];
      SumUpdate(f, calls[1..], i - 1, pc);
    }
  }

  lemma {:induction false} SumBound(f: Pc -> nat, calls: seq<Pc>, most: nat)
    requires forall i | 0 <= i < |calls| :: f(calls[i]) <= most
    ensures Sum(f, calls) <= |calls| * most
  {
    if calls != [] {
      assert forall i | 0 <= i < |calls[1..]| :: calls[1..][i] == calls[i + 1];
      SumBound(f, calls[1..], most);
      assert |calls| * most == (|calls| - 1) * most + most;
    }
  }

  lemma {:induction false} SumOfNothing(f: Pc -> nat, calls: seq<Pc>)
    requires forall i | 0 <= i < |calls| :: f(calls[i]) == 0
    ensures Sum(f, calls) == 0
  {
    if calls != [] {
      assert forall i | 0 <= i < |calls[1..]| :: calls[1..][i] == calls[i + 1];
      SumOfNothing(f, calls[1..]);
    }
  }

  // ---------- the invariant ----------

  predicate Short(c: Config, pc: Pc) {
    pc.Idle? || pc.len <= c.longest
  }

  // Every refusal is in the counter, in the hands of a call that took it, or reported.
  predicate Accounted(s: State) {
    Refusals(s.history) == Reported(s.history) + Sum(Taken, s.calls) + s.shared.dropped
  }

  predicate Within(c: Config, s: State) {
    && s.shared.quota <= c.quota
    && s.shared.sum == InPeriod(s.history)
    && (forall i | 0 <= i < |s.calls| :: Short(c, s.calls[i]))
    && s.shared.sum + Sum(pc => Pending(c, pc), s.calls) <= c.quota + |s.calls| * c.longest
  }

  lemma Logged(h: seq<Outcome>, o: Outcome)
    ensures Refusals(h + [o]) == Refusals(h) + (if Returned(o) == -1 then 1 else 0)
    ensures Reported(h + [o]) == Reported(h) + (if Returned(o) > 0 then Returned(o) else 0)
    ensures InPeriod(h + [o])
         == match o
            case NewPeriod(len, _, _) => len
            case Admitted(len) => InPeriod(h) + len
            case Refused => InPeriod(h)
  {
    assert (h + [o])[..|h + [o]| - 1] == h;
  }

  // One access moves a drop from the counter to the call, or from the call to its result.
  lemma AccessAccounts(c: Config, g: Shared, pc: Pc, h: seq<Outcome>)
    requires !pc.Idle?
    ensures var (g', pc', o) := Access(c, g, pc);
      Refusals(Log(h, o)) + Reported(h) + Taken(pc) + g.dropped
        == Refusals(h) + Reported(Log(h, o)) + Taken(pc') + g'.dropped
  {
    var o := Access(c, g, pc).2;
    if o.Some? { Logged(h, o.value); }
  }

  lemma StepAccounts(c: Config, s: State, e: Event)
    requires Accounted(s) && Step(c, s, e).Some?
    ensures Accounted(Step(c, s, e).value)
  {
    var pc := s.calls[e.call];
    if e.Enter? {
      var entered := if s.shared.first then ReadingStart(e.len, e.now) else SettingQuota(e.len, e.now);
      SumUpdate(Taken, s.calls, e.call, entered);
    } else {
      SumUpdate(Taken, s.calls, e.call, Access(c, s.shared, pc).1);
      AccessAccounts(c, s.shared, pc, s.history);
    }
  }

  // A call that is not pending leaves room for one more message.
  lemma Room(c: Config, calls: seq<Pc>, i: nat)
    requires i < |calls| && Pending(c, calls[i]) == 0
    requires forall j | 0 <= j < |calls| :: Short(c, calls[j])
    ensures Sum(pc => Pending(c, pc), calls) + c.longest <= |calls| * c.longest
  {
    var f := pc => Pending(c, pc);
    var full := Adding(c.longest);
    SumUpdate(f, calls, i, full);
    SumBound(f, calls[i := full], c.longest);
  }

  // One access adds to the sum only what was pending, and makes a message pending only while the
  // sum is within the quota.
  lemma AccessStaysWithin(c: Config, g: Shared, pc: Pc)
    requires !pc.Idle? && Short(c, pc) && g.quota <= c.quota
    ensures var (g', pc', _) := Access(c, g, pc);
      && Short(c, pc') && g'.quota <= c.quota
      && (|| g'.sum + Pending(c, pc') <= g.sum + Pending(c, pc)
          || (Pending(c, pc) == 0 && g'.sum + Pending(c, pc') <= c.quota + c.longest))
  {}

  // The sum follows the history.
  lemma AccessKeepsSum(c: Config, g: Shared, pc: Pc, h: seq<Outcome>)
    requires !pc.Idle? && g.sum == InPeriod(h)
    ensures var (g', pc', o) := Access(c, g, pc);
      g'.sum == InPeriod(Log(h, o))
  {
    match pc
    case Restarting(len, now, taken) => Logged(h, NewPeriod(len, now, taken));
    case Dropping(_) => Logged(h, Refused);
    case Adding(len) => Logged(h, Admitted(len));
    case _ =>
  }

  lemma StepStaysWithin(c: Config, s: State, e: Event)
    requires Within(c, s) && Step(c, s, e).Some?
    ensures Within(c, Step(c, s, e).value)
  {
    var pc := s.calls[e.call];
    var f := pc => Pending(c, pc);
    if e.Enter? {
      var entered := if s.shared.first then ReadingStart(e.len, e.now) else SettingQuota(e.len, e.now);
      SumUpdate(f, s.calls, e.call, entered);
    } else {
      SumUpdate(f, s.calls, e.call, Access(c, s.shared, pc).1);
      AccessStaysWithin(c, s.shared, pc);
      AccessKeepsSum(c, s.shared, pc, s.history);
      if Pending(c, pc) == 0 { Room(c, s.calls, e.call); }
    }
  }

  lemma {:induction false} RunKeeps(c: Config, s: State, es: seq<Event>)
    requires Accounted(s) && Within(c, s) && Run(c, s, es).Some?
    ensures Accounted(Run(c, s, es).value) && Within(c, Run(c, s, es).value)
    ensures |Run(c, s, es).value.calls| == |s.calls|
    decreases |es|
  {
    if es != [] {
      StepAccounts(c, s, es[0]);
      StepStaysWithin(c, s, es[0]);
      RunKeeps(c, Step(c, s, es[0]).value, es[1..]);
    }
  }

  lemma InitialKeeps(c: Config, n: nat)
    ensures Accounted(Initial(n)) && Within(c, Initial(n))
  {
    SumOfNothing(Taken, Initial(n).calls);
    SumOfNothing(pc => Pending(c, pc), Initial(n).calls);
  }

  /** In every run of n calls at a time, the refusals are those reported plus those in the counter
      plus those a call has taken and is about to report. */
  lemma DropsAreAccounted(c: Config, n: nat, es: seq<Event>)
    requires Run(c, Initial(n), es).Some?
    ensures var s := Run(c, Initial(n), es).value;
      Refusals(s.history) == Reported(s.history) + Sum(Taken, s.calls) + s.shared.dropped
    ensures var s := Run(c, Initial(n), es).value;
      (forall i | 0 <= i < |s.calls| :: s.calls[i].Idle?) ==>
        Refusals(s.history) == Reported(s.history) + s.shared.dropped
  {
    InitialKeeps(c, n);
    RunKeeps(c, Initial(n), es);
    var s := Run(c, Initial(n), es).value;
    if forall i | 0 <= i < |s.calls| :: s.calls[i].Idle? { SumOfNothing(Taken, s.calls); }
  }

  /** In every run of n calls at a time, one period lets through at most the quota and n messages;
      the byte counter always holds what the period has let through. */
  lemma PeriodIsBounded(c: Config, n: nat, es: seq<Event>)
    requires Run(c, Initial(n), es).Some?
    ensures var s := Run(c, Initial(n), es).value;
      InPeriod(s.history) == s.shared.sum && s.shared.sum <= c.quota + n * c.longest
  {
    InitialKeeps(c, n);
    RunKeeps(c, Initial(n), es);
  }

  // ---------- one call at a time ----------

  // A call with nobody else under way, in one piece.
  function Call(c: Config, g: Shared, len: nat, now: nat): (Shared, Outcome) {
    var q := if g.first then g.quota else c.quota;
    var g := g.(first := true, quota := q);
    if now > g.start + PERIOD then (g.(dropped := 0, start := now, sum := len), NewPeriod(len, now, g.dropped))
    else if g.sum > q then (g.(dropped := g.dropped + 1), Refused)
    else (g.(sum := g.sum + len), Admitted(len))
  }

  lemma {:induction false} RunAppend(c: Config, s: State, a: seq<Event>, b: seq<Event>)
    requires Run(c, s, a).Some?
    ensures Run(c, s, a + b) == Run(c, Run(c, s, a).value, b)
    decreases |a|
  {
    if a == [] {
      assert a + b == b;
    } else {
      assert (a + b)[0] == a[0] && (a + b)[1..] == a[1..] + b;
      RunAppend(c, Step(c, s, a[0]).value, a[1..], b);
    }
  }

  function StepsLeft(pc: Pc): nat {
    match pc
    case Idle => 0
    case SettingQuota(_, _) => 5
    case ReadingStart(_, _) => 4
    case Exchanging(_, _) => 3
    case Stamping(_, _, _) => 2
    case Restarting(_, _, _) => 1
    case ReadingSum(_) => 3
    case Comparing(_, _) => 2
    case Dropping(_) => 1
    case Adding(_) => 1
  }

  // Where a call gets to when nobody interrupts it.
  function Drive(c: Config, g: Shared, pc: Pc): (Shared, Outcome)
    requires !pc.Idle?
    decreases StepsLeft(pc)
  {
    var (g', pc', o) := Access(c, g, pc);
    if o.Some? then (g', o.value) else Drive(c, g', pc')
  }

  lemma {:induction false} DriveRuns(c: Config, s: State, i: nat) returns (es: seq<Event>)
    requires i < |s.calls| && !s.calls[i].Idle?
    ensures var (g, o) := Drive(c, s.shared, s.calls[i]);
      Run(c, s, es) == Some(State(g, s.calls[i := Idle], s.history + [o]))
    decreases StepsLeft(s.calls[i])
  {
    var s' := Step(c, s, Advance(i)).value;
    if s'.calls[i].Idle? {
      es := [Advance(i)];
      assert es[1..] == [];
    } else {
      var rest := DriveRuns(c, s', i);
      assert s'.calls[i := Idle] == s.calls[i := Idle];
      es := [Advance(i)] + rest;
      assert es[1..] == rest;
    }
  }

  lemma DriveIsCall(c: Config, g: Shared, len: nat, now: nat)
    requires g.first
    ensures Drive(c, g, ReadingStart(len, now)) == Call(c, g, len, now)
  {
    if now > g.start + PERIOD {
      var g1 := g.(dropped := 0);
      assert Drive(c, g, Exchanging(len, now)) == Drive(c, g1, Stamping(len, now, g.dropped));
      assert Drive(c, g1, Stamping(len, now, g.dropped))
          == Drive(c, g1.(start := now), Restarting(len, now, g.dropped));
    } else {
      assert Drive(c, g, ReadingSum(len)) == Drive(c, g, Comparing(len, g.sum));
    }
  }

  /** A call whose steps nobody interrupts is the call in one piece, whatever else is under way. */
  lemma AloneIsOnePiece(c: Config, s: State, i: nat, len: nat, now: nat) returns (es: seq<Event>)
    requires i < |s.calls| && s.calls[i].Idle? && len <= c.longest
    ensures var (g, o) := Call(c, s.shared, len, now);
      Run(c, s, es) == Some(State(g, s.calls, s.history + [o]))
  {
    var e := Enter(i, len, now);
    var s1 := Step(c, s, e).value;
    var rest := DriveRuns(c, s1, i);
    es := [e] + rest;
    assert es[1..] == rest;
    assert s1.calls[i := Idle] == s.calls;
    if s.shared.first {
      DriveIsCall(c, s1.shared, len, now);
    } else {
      DriveIsCall(c, s1.shared.(quota := c.quota), len, now);
    }
  }

  // Calls one after the other; each with its length and its time.
  function Calls(c: Config, g: Shared, h: seq<Outcome>, inputs: seq<(nat, nat)>): (Shared, seq<Outcome>)
    decreases |inputs|
  {
    if inputs == [] then (g, h)
    else
      var (g', o) := Call(c, g, inputs[0].0, inputs[0].1);
      Calls(c, g', h + [o], inputs[1..])
  }

  lemma {:induction false} CallsRun(c: Config, s: State, inputs: seq<(nat, nat)>) returns (es: seq<Event>)
    requires |s.calls| == 1 && s.calls[0].Idle?
    requires forall k | 0 <= k < |inputs| :: inputs[k].0 <= c.longest
    ensures var (g, h) := Calls(c, s.shared, s.history, inputs);
      Run(c, s, es) == Some(State(g, s.calls, h))
    decreases |inputs|
  {
    if inputs == [] {
      es := [];
    } else {
      var first := AloneIsOnePiece(c, s, 0, inputs[0].0, inputs[0].1);
      assert forall k | 0 <= k < |inputs[1..]| :: inputs[1..][k] == inputs[k + 1];
      var rest := CallsRun(c, Run(c, s, first).value, inputs[1..]);
      RunAppend(c, s, first, rest);
      es := first + rest;
    }
  }

  // The time of the last call that opened a period, 0 before the first.
  function OpenedAt(inputs: seq<(nat, nat)>, h: seq<Outcome>): nat
    requires |inputs| == |h|
  {
    if h == [] then 0
    else if h[|h|-1].NewPeriod? then inputs[|h|-1].1
    else OpenedAt(inputs[..|h|-1], h[..|h|-1])
  }

  // The bytes of the calls let through since then.
  function BytesSince(inputs: seq<(nat, nat)>, h: seq<Outcome>): nat
    requires |inputs| == |h|
  {
    if h == [] then 0
    else if h[|h|-1].NewPeriod? then inputs[|h|-1].0
    else BytesSince(inputs[..|h|-1], h[..|h|-1]) + (if Returned(h[|h|-1]) == -1 then 0 else inputs[|h|-1].0)
  }

  // The calls refused since then.
  function RefusedSince(h: seq<Outcome>): nat {
    if h == [] || h[|h|-1].NewPeriod? then 0
    else RefusedSince(h[..|h|-1]) + (if Returned(h[|h|-1]) == -1 then 1 else 0)
  }

  // What a call gets to hear, from the calls before it alone.
  predicate Follows(c: Config, inputs: seq<(nat, nat)>, h: seq<Outcome>, now: nat, o: Outcome)
    requires |inputs| == |h|
  {
    && (o.NewPeriod? <==> now > OpenedAt(inputs, h) + PERIOD)
    && (o.NewPeriod? ==> Returned(o) == RefusedSince(h))
    && (Returned(o) == -1 <==> !o.NewPeriod? && BytesSince(inputs, h) > c.quota)
    && (!o.NewPeriod? && Returned(o) != -1 ==> Returned(o) == 0)
  }

  predicate EachFollows(c: Config, inputs: seq<(nat, nat)>, h: seq<Outcome>)
    requires |inputs| == |h|
  {
    forall k | 0 <= k < |h| :: Follows(c, inputs[..k], h[..k], inputs[k].1, h[k])
  }

  // The static variables hold what the calls so far make of them.
  predicate Tracks(c: Config, g: Shared, inputs: seq<(nat, nat)>, h: seq<Outcome>)
    requires |inputs| == |h|
  {
    && g.start == OpenedAt(inputs, h) && g.sum == BytesSince(inputs, h) && g.dropped == RefusedSince(h)
    && (g.first ==> g.quota == c.quota)
  }

  lemma CallFollows(c: Config, g: Shared, inputs: seq<(nat, nat)>, h: seq<Outcome>, len: nat, now: nat)
    requires |inputs| == |h| && Tracks(c, g, inputs, h)
    ensures var (g', o) := Call(c, g, len, now);
      Follows(c, inputs, h, now, o) && Tracks(c, g', inputs + [(len, now)], h + [o])
  {
    var (g', o) := Call(c, g, len, now);
    assert (h + [o])[..|h + [o]| - 1] == h && (inputs + [(len, now)])[..|h + [o]| - 1] == inputs;
  }

  lemma OneMoreFollows(c: Config, inputs: seq<(nat, nat)>, h: seq<Outcome>, input: (nat, nat), o: Outcome)
    requires |inputs| == |h| && EachFollows(c, inputs, h) && Follows(c, inputs, h, input.1, o)
    ensures EachFollows(c, inputs + [input], h + [o])
  {
    hide Follows;
    var more, longer := inputs + [input], h + [o];
    forall k | 0 <= k < |longer| ensures Follows(c, more[..k], longer[..k], more[k].1, longer[k]) {
      if k < |h| {
        assert more[..k] == inputs[..k] && longer[..k] == h[..k];
      } else {
        assert more[..k] == inputs && longer[..k] == h;
      }
    }
  }

  lemma NextInput<T>(before: seq<T>, inputs: seq<T>)
    requires inputs != []
    ensures before + [inputs[0]] + inputs[1..] == before + inputs
  {
  }

  lemma {:induction false} CallsFollow(c: Config, g: Shared, before: seq<(nat, nat)>, h: seq<Outcome>,
                                       inputs: seq<(nat, nat)>)
    requires |before| == |h| && EachFollows(c, before, h) && Tracks(c, g, before, h)
    ensures var (g', h') := Calls(c, g, h, inputs);
      |h'| == |before + inputs| && EachFollows(c, before + inputs, h') && Tracks(c, g', before + inputs, h')
    decreases |inputs|
  {
    if inputs == [] {
      assert before + inputs == before;
    } else {
      hide Follows, EachFollows, Tracks, Call;
      var input := inputs[0];
      var (g', o) := Call(c, g, input.0, input.1);
      CallFollows(c, g, before, h, input.0, input.1);
      OneMoreFollows(c, before, h, input, o);
      CallsFollow(c, g', before + [input], h + [o], inputs[1..]);
      NextInput(before, inputs);
    }
  }

  /** Calls one after the other: each opens a period exactly when it comes more than one second after the
      last that did, and is then told how many were refused since; it is refused exactly when it opens none
      and the bytes let through since exceed the quota.  One period lets through at most the quota and one
      message, and what callers are told of refusals adds up. */
  lemma OneAtATime(c: Config, inputs: seq<(nat, nat)>)
    requires forall k | 0 <= k < |inputs| :: inputs[k].0 <= c.longest
    ensures var (g, h) := Calls(c, Fresh(), [], inputs);
      && |h| == |inputs| && EachFollows(c, inputs, h)
      && BytesSince(inputs, h) <= c.quota + c.longest
      && Refusals(h) == Reported(h) + RefusedSince(h)
  {
    CallsFollow(c, Fresh(), [], [], inputs);
    assert [] + inputs == inputs;
    var es := CallsRun(c, Initial(1), inputs);
    DropsAreAccounted(c, 1, es);
    PeriodIsBounded(c, 1, es);
  }

  // ---------- the start of a period ----------

  // A call that came in at that time has opened a period, returned or not.
  predicate Opened(s: State, now: nat) {
    || (exists k :: 0 <= k < |s.history| && s.history[k].NewPeriod? && s.history[k].now == now)
    || (exists i :: 0 <= i < |s.calls| && s.calls[i].Restarting? && s.calls[i].now == now)
  }

  ghost predicate StartIsOpening(s: State) {
    if forall now: nat :: !Opened(s, now) then s.shared.start == 0 else Opened(s, s.shared.start)
  }

  // The time of a call that has yet to open its period or is doing so.
  function TimeOf(pc: Pc): Option<nat> {
    if pc.SettingQuota? || pc.ReadingStart? || pc.Exchanging? || pc.Stamping? || pc.Restarting? then Some(pc.now)
    else None
  }

  predicate Late(pc: Pc) {
    pc.Exchanging? || pc.Stamping? || pc.Restarting? ==> pc.now > PERIOD
  }

  predicate TimesAreFrom(s: State, times: set<nat>) {
    && (forall i | 0 <= i < |s.calls| :: Late(s.calls[i])
          && (TimeOf(s.calls[i]).Some? ==> TimeOf(s.calls[i]).value in times))
    && (forall k | 0 <= k < |s.history| && s.history[k].NewPeriod? ::
          s.history[k].now > PERIOD && s.history[k].now in times)
  }

  function Times(es: seq<Event>): set<nat> {
    if es == [] then {} else (if es[0].Enter? then {es[0].now} else {}) + Times(es[1..])
  }

  // Which times have opened a period after a step: those before, and that of a call that has just written it.
  lemma OpenedStep(c: Config, s: State, e: Event, now: nat)
    requires Step(c, s, e).Some?
    ensures Opened(Step(c, s, e).value, now)
       <==> Opened(s, now) || (e.Advance? && s.calls[e.call].Stamping? && s.calls[e.call].now == now)
  {
    var s' := Step(c, s, e).value;
    if k :| 0 <= k < |s.history| && s.history[k].NewPeriod? && s.history[k].now == now {
      assert s'.history[k] == s.history[k];
    }
    if i :| 0 <= i < |s.calls| && s.calls[i].Restarting? && s.calls[i].now == now {
      if e.Advance? && i == e.call {
        assert s'.history[|s.history|].now == now;
      } else {
        assert s'.calls[i] == s.calls[i];
      }
    }
    if e.Advance? && s.calls[e.call].Stamping? && s.calls[e.call].now == now {
      assert s'.calls[e.call].now == now;
    }
  }

  lemma StepKeepsOpening(c: Config, s: State, e: Event)
    requires StartIsOpening(s) && Step(c, s, e).Some?
    ensures StartIsOpening(Step(c, s, e).value)
  {
    forall now ensures Opened(Step(c, s, e).value, now)
      <==> Opened(s, now) || (e.Advance? && s.calls[e.call].Stamping? && s.calls[e.call].now == now)
    {
      OpenedStep(c, s, e, now);
    }
    hide Opened;
  }

  lemma StepKeepsTimes(c: Config, s: State, e: Event, times: set<nat>)
    requires TimesAreFrom(s, times) && Step(c, s, e).Some? && (e.Enter? ==> e.now in times)
    ensures TimesAreFrom(Step(c, s, e).value, times)
  {
  }

  lemma {:induction false} RunKeepsOpening(c: Config, s: State, es: seq<Event>, times: set<nat>)
    requires StartIsOpening(s) && TimesAreFrom(s, times) && Times(es) <= times && Run(c, s, es).Some?
    ensures StartIsOpening(Run(c, s, es).value) && TimesAreFrom(Run(c, s, es).value, times)
    decreases |es|
  {
    if es != [] {
      hide StartIsOpening, TimesAreFrom, Step;
      StepKeepsOpening(c, s, es[0]);
      StepKeepsTimes(c, s, es[0], times);
      RunKeepsOpening(c, Step(c, s, es[0]).value, es[1..], times);
    }
  }

  /** In every run of n calls at a time, the start is the time of some call that has opened a period, 0 if none
      has; and that is the time at which a call came in, later than one second. */
  lemma StartIsOfAnOpening(c: Config, n: nat, es: seq<Event>)
    requires Run(c, Initial(n), es).Some?
    ensures var s := Run(c, Initial(n), es).value;
      && (if forall now: nat :: !Opened(s, now) then s.shared.start == 0 else Opened(s, s.shared.start))
      && (forall now: nat | Opened(s, now) :: now > PERIOD && now in Times(es))
  {
    RunKeepsOpening(c, Initial(n), es, Times(es));
  }

  /** The function with its static variables. */
  class FlowControl {
    var isFirstFlag: bool
    var processQuota: nat
    var gStartTime: nat
    var gSumLen: nat
    var gDropped: nat
    const config: Config

    constructor (config: Config)
      ensures this.config == config && State() == Fresh()
    {
      this.config := config;
      isFirstFlag, processQuota, gStartTime, gSumLen, gDropped := false, 0, 0, 0, 0;
    }

    ghost function State(): Shared
      reads this
    {
      Shared(isFirstFlag, processQuota, gStartTime, gSumLen, gDropped)
    }

    method Process(len: nat, now: nat) returns (r: int)
      modifies this
      ensures State() == Call(config, old(State()), len, now).0
      ensures r == Returned(Call(config, old(State()), len, now).1)
    {
      if !isFirstFlag {
        isFirstFlag := true;
        processQuota := config.quota;
      }
      var tsStart := gStartTime + PERIOD;
      if now > tsStart {
        var dropped := gDropped;
        gDropped := 0;
        gStartTime := now;
        gSumLen := len;
        return dropped;
      } else {
        var sumLen := gSumLen;
        if sumLen > processQuota {
          gDropped := gDropped + 1;
          return -1;
        } else {
          gSumLen := gSumLen + len;
        }
      }
      return 0;
    }
  }
}
