/** The spawn requests of appspawn, from their arrival to their reply: what the event handlers do with
    the contexts of the requests under way. */
module AppSpawn {
  import opened Basics

  // A request under way; ids number the contexts, requests the messages.
  datatype Context = Context(id: nat, request: nat, connection: nat, pid: nat)

  datatype Reply = Reply(request: nat, result: int, pid: nat)

  const SYSTEM_ERROR: int := -1
  const CHILD_CRASH: int := -2
  const SPAWN_TIMEOUT: int := -3
  const MAX_CRASH_TIME: nat := 5

  // How far the handling of a new request gets.
  datatype Spawn =
    | BadMessage(result: int)
    | NoContext
    | NoChild(result: int)
    | NotWatched(pid: nat)
    | Spawned(pid: nat)

  datatype Event =
    | Request(connection: nat, spawn: Spawn)
    | Response(context: nat, result: int) // the place of the context, what its pipe holds
    | Timeout(context: nat)
    | Died(pid: nat, webSpawner: bool)
    | Close(connection: nat)
    | Terminate

  datatype State = State(spawning: seq<Context>, processes: set<nat>, lastId: nat, lastDied: nat, crashTimes: nat,
                         stopped: bool, accepted: nat, replies: seq<Reply>, dropped: seq<nat>, crashed: seq<nat>)

  function Initial(): State {
    State([], {}, 0, 0, 0, false, 0, [], [], [])
  }

  function Without(cs: seq<Context>, i: nat): seq<Context>
    requires i < |cs|
  {
    cs[..i] + cs[i + 1..]
  }

  function NewRequest(s: State, connection: nat, spawn: Spawn): State {
    var r := s.accepted;
    var s := s.(accepted := r + 1);
    match spawn
    case BadMessage(result) => s.(replies := s.replies + [Reply(r, result, 0)])
    case NoContext => s.(replies := s.replies + [Reply(r, SYSTEM_ERROR, 0)])
    case NoChild(result) => s.(lastId := s.lastId + 1, replies := s.replies + [Reply(r, result, 0)])
    case NotWatched(_) => s.(lastId := s.lastId + 1, replies := s.replies + [Reply(r, 0, 0)])
    case Spawned(pid) =>
      s.(lastId := s.lastId + 1, spawning := s.spawning + [Context(s.lastId + 1, r, connection, pid)])
  }

  // The reply to context i, which ends it.
  function Finish(s: State, i: nat, result: int, pid: nat): State
    requires i < |s.spawning|
  {
    s.(replies := s.replies + [Reply(s.spawning[i].request, result, pid)], spawning := Without(s.spawning, i))
  }

  // The place of the first context of a process; the number of contexts when there is none.
  function Find(cs: seq<Context>, pid: nat): (i: nat)
    ensures i <= |cs| && (i < |cs| ==> cs[i].pid == pid) && forall j | 0 <= j < i :: cs[j].pid != pid
  {
    if cs == [] || cs[0].pid == pid then 0 else 1 + Find(cs[1..], pid)
  }

  // The loop is told to end, and no process is kept track of any more.
  function Stopped(s: State): State {
    s.(stopped := true, processes := {})
  }

  function ChildDied(s: State, pid: nat): State {
    var i := Find(s.spawning, pid);
    if i == |s.spawning| then s
    else
      var id := s.spawning[i].id;
      var times := if id == s.lastDied + 1 then s.crashTimes + 1 else 1;
      var s := Finish(s, i, CHILD_CRASH, 0).(crashTimes := times, lastDied := id, crashed := s.crashed + [id]);
      if times >= MAX_CRASH_TIME then Stopped(s) else s
  }

  function Kept(cs: seq<Context>, connection: nat): seq<Context> {
    if cs == [] then []
    else (if cs[0].connection == connection then [] else [cs[0]]) + Kept(cs[1..], connection)
  }

  function Lost(cs: seq<Context>, connection: nat): seq<nat> {
    if cs == [] then []
    else (if cs[0].connection == connection then [cs[0].request] else []) + Lost(cs[1..], connection)
  }

  // A stop only tells the loop to end: the events that are already there are still handled.
  predicate Enabled(s: State, e: Event) {
    match e
    case Request(_, BadMessage(result)) => result != 0
    case Request(_, NoChild(result)) => result != 0
    case Response(i, _) => i < |s.spawning|
    case Timeout(i) => i < |s.spawning|
    case _ => true
  }

  function Step(s: State, e: Event): State
    requires Enabled(s, e)
  {
    match e
    case Request(connection, spawn) => NewRequest(s, connection, spawn)
    case Response(i, result) =>
      var pid := s.spawning[i].pid;
      if result != 0 then Finish(s, i, result, pid)
      else Finish(s, i, 0, pid).(processes := s.processes + {pid})
    case Timeout(i) => Finish(s, i, SPAWN_TIMEOUT, 0)
    case Died(pid, webSpawner) =>
      if pid !in s.processes then ChildDied(s, pid)
      else if webSpawner then Stopped(s)
      else s.(processes := s.processes - {pid})
    case Close(connection) =>
      s.(spawning := Kept(s.spawning, connection), dropped := s.dropped + Lost(s.spawning, connection))
    case Terminate => Stopped(s)
  }

  predicate CanRun(s: State, es: seq<Event>)
    decreases |es|
  {
    es == [] || (Enabled(s, es[0]) && CanRun(Step(s, es[0]), es[1..]))
  }

  function Run(s: State, es: seq<Event>): State
    requires CanRun(s, es)
    decreases |es|
  {
    if es == [] then s else Run(Step(s, es[0]), es[1..])
  }

  // ---------- every request is answered once, under way, or dropped ----------

  function Pending(cs: seq<Context>, r: nat): nat {
    if cs == [] then 0 else (if cs[0].request == r then 1 else 0) + Pending(cs[1..], r)
  }

  function Answers(rs: seq<Reply>, r: nat): nat {
    if rs == [] then 0 else (if rs[0].request == r then 1 else 0) + Answers(rs[1..], r)
  }

  function Drops(ds: seq<nat>, r: nat): nat {
    if ds == [] then 0 else (if ds[0] == r then 1 else 0) + Drops(ds[1..], r)
  }

  predicate Conserved(s: State, r: nat) {
    Answers(s.replies, r) + Pending(s.spawning, r) + Drops(s.dropped, r) == (if r < s.accepted then 1 else 0)
  }

  lemma {:induction false} PendingOfTwo(a: seq<Context>, b: seq<Context>, r: nat)
    ensures Pending(a + b, r) == Pending(a, r) + Pending(b, r)
  {
    if a == [] {
      assert a + b == b;
    } else {
      assert (a + b)[0] == a[0] && (a + b)[1..] == a[1..] + b;
      PendingOfTwo(a[1..], b, r);
    }
  }

  lemma {:induction false} PendingWithout(cs: seq<Context>, i: nat, r: nat)
    requires i < |cs|
    ensures Pending(cs, r) == Pending(Without(cs, i), r) + (if cs[i].request == r then 1 else 0)
  {
    var before, after := cs[..i], cs[i + 1..];
    PendingOfTwo(before, after, r);
    PendingOfTwo(before, cs[i..], r);
    assert cs == before + cs[i..];
    assert cs[i..][1..] == after;
  }

  lemma {:induction false} AnswersMore(rs: seq<Reply>, x: Reply, r: nat)
    ensures Answers(rs + [x], r) == Answers(rs, r) + (if x.request == r then 1 else 0)
  {
    if rs == [] {
      assert [] + [x] == [x] && [x][1..] == [];
    } else {
      assert (rs + [x])[0] == rs[0] && (rs + [x])[1..] == rs[1..] + [x];
      AnswersMore(rs[1..], x, r);
    }
  }

  lemma {:induction false} DropsOfTwo(a: seq<nat>, b: seq<nat>, r: nat)
    ensures Drops(a + b, r) == Drops(a, r) + Drops(b, r)
  {
    if a == [] {
      assert a + b == b;
    } else {
      assert (a + b)[0] == a[0] && (a + b)[1..] == a[1..] + b;
      DropsOfTwo(a[1..], b, r);
    }
  }

  lemma {:induction false} KeptAndLost(cs: seq<Context>, connection: nat, r: nat)
    ensures Pending(cs, r) == Pending(Kept(cs, connection), r) + Drops(Lost(cs, connection), r)
  {
    if cs != [] {
      KeptAndLost(cs[1..], connection, r);
      PendingOfTwo(if cs[0].connection == connection then [] else [cs[0]], Kept(cs[1..], connection), r);
      DropsOfTwo(if cs[0].connection == connection then [cs[0].request] else [], Lost(cs[1..], connection), r);
      assert [cs[0]][1..] == [] && [cs[0].request][1..] == [];
    }
  }

  lemma FinishConserves(s: State, i: nat, result: int, pid: nat, r: nat)
    requires Conserved(s, r) && i < |s.spawning|
    ensures Conserved(Finish(s, i, result, pid), r)
  {
    hide Answers, Pending, Drops, Without;
    PendingWithout(s.spawning, i, r);
    AnswersMore(s.replies, Reply(s.spawning[i].request, result, pid), r);
  }

  lemma RequestConserves(s: State, connection: nat, spawn: Spawn, r: nat)
    requires Conserved(s, r)
    ensures Conserved(NewRequest(s, connection, spawn), r)
  {
    hide Answers, Drops;
    var n := s.accepted;
    match spawn {
      case Spawned(pid) =>
        var c := Context(s.lastId + 1, n, connection, pid);
        PendingOfTwo(s.spawning, [c], r);
        assert [c][1..] == [];
      case BadMessage(result) => AnswersMore(s.replies, Reply(n, result, 0), r);
      case NoContext => AnswersMore(s.replies, Reply(n, SYSTEM_ERROR, 0), r);
      case NoChild(result) => AnswersMore(s.replies, Reply(n, result, 0), r);
      case NotWatched(_) => AnswersMore(s.replies, Reply(n, 0, 0), r);
    }
  }

  lemma StepConserves(s: State, e: Event, r: nat)
    requires Conserved(s, r) && Enabled(s, e)
    ensures Conserved(Step(s, e), r)
  {
    hide Answers, Pending, Drops, Find, Without, Kept, Lost;
    match e {
      case Request(connection, spawn) => RequestConserves(s, connection, spawn, r);
      case Response(i, result) => FinishConserves(s, i, result, s.spawning[i].pid, r);
      case Timeout(i) => FinishConserves(s, i, SPAWN_TIMEOUT, 0, r);
      case Died(pid, _) =>
        var i := Find(s.spawning, pid);
        if i < |s.spawning| { FinishConserves(s, i, CHILD_CRASH, 0, r); }
      case Close(connection) =>
        KeptAndLost(s.spawning, connection, r);
        DropsOfTwo(s.dropped, Lost(s.spawning, connection), r);
      case Terminate =>
    }
  }

  lemma {:induction false} RunConserves(s: State, es: seq<Event>, r: nat)
    requires Conserved(s, r) && CanRun(s, es)
    ensures Conserved(Run(s, es), r)
    decreases |es|
  {
    if es != [] {
      StepConserves(s, es[0], r);
      RunConserves(Step(s, es[0]), es[1..], r);
    }
  }

  /** In every run each request that came in has been answered, is under way, or was dropped when its
      connection closed: one of the three, once. */
  lemma RequestsAreConserved(es: seq<Event>, r: nat)
    requires CanRun(Initial(), es)
    ensures var s := Run(Initial(), es);
      Answers(s.replies, r) + Pending(s.spawning, r) + Drops(s.dropped, r) == (if r < s.accepted then 1 else 0)
  {
    RunConserves(Initial(), es, r);
  }

  // ---------- crashes in a row ----------

  // How many of the last crashes are of contexts that were created one right after the other.
  function InARow(ids: seq<nat>): nat {
    if ids == [] then 0
    else if |ids| >= 2 && ids[|ids| - 1] == ids[|ids| - 2] + 1 then InARow(ids[..|ids| - 1]) + 1
    else 1
  }

  predicate CountIs(ids: seq<nat>, times: nat, last: nat) {
    times == InARow(ids) && last == (if ids == [] then 0 else ids[|ids| - 1])
  }

  predicate Numbered(cs: seq<Context>, lastId: nat) {
    forall c | c in cs :: 0 < c.id <= lastId
  }

  predicate CrashesCounted(s: State) {
    CountIs(s.crashed, s.crashTimes, s.lastDied) && Numbered(s.spawning, s.lastId)
  }

  lemma StepCounts(s: State, e: Event)
    requires CrashesCounted(s) && Enabled(s, e)
    ensures CrashesCounted(Step(s, e))
  {
    hide Lost, Kept, Find, InARow;
    if e.Died? && e.pid !in s.processes {
      ChildDiedCounts(s, e.pid);
    } else if e.Close? {
      KeptAreOld(s.spawning, e.connection);
    }
  }

  lemma OneMoreCrash(ids: seq<nat>, times: nat, last: nat, id: nat)
    requires CountIs(ids, times, last) && id > 0
    ensures CountIs(ids + [id], if id == last + 1 then times + 1 else 1, id)
  {
    var more := ids + [id];
    assert more[..|more| - 1] == ids;
  }

  lemma WithoutIsPart(cs: seq<Context>, i: nat, lastId: nat)
    requires i < |cs| && Numbered(cs, lastId)
    ensures cs[i].id > 0 && Numbered(Without(cs, i), lastId)
  {
    assert cs[i] in cs;
  }

  lemma ChildDiedCounts(s: State, pid: nat)
    requires CrashesCounted(s)
    ensures CrashesCounted(ChildDied(s, pid))
  {
    hide CountIs, Numbered, InARow, Find, Without;
    var i := Find(s.spawning, pid);
    if i < |s.spawning| {
      WithoutIsPart(s.spawning, i, s.lastId);
      OneMoreCrash(s.crashed, s.crashTimes, s.lastDied, s.spawning[i].id);
    }
  }

  lemma {:induction false} KeptAreOld(cs: seq<Context>, connection: nat)
    ensures forall c | c in Kept(cs, connection) :: c in cs && c.connection != connection
    ensures forall c | c in cs && c.connection != connection :: c in Kept(cs, connection)
  {
    if cs != [] { KeptAreOld(cs[1..], connection); }
  }

  lemma {:induction false} RunCounts(s: State, es: seq<Event>)
    requires CrashesCounted(s) && CanRun(s, es)
    ensures CrashesCounted(Run(s, es))
    decreases |es|
  {
    if es != [] {
      StepCounts(s, es[0]);
      RunCounts(Step(s, es[0]), es[1..]);
    }
  }

  // The last n numbers go up one by one.
  predicate Consecutive(ids: seq<nat>, n: nat) {
    n <= |ids| && forall j | |ids| - n <= j < |ids| :: ids[j] + (|ids| - 1 - j) == ids[|ids| - 1]
  }

  lemma ConsecutiveStep(ids: seq<nat>, n: nat)
    requires n >= 2 && |ids| >= 2
    ensures Consecutive(ids, n)
       <==> Consecutive(ids[..|ids| - 1], n - 1) && ids[|ids| - 1] == ids[|ids| - 2] + 1
  {
    var front, last := ids[..|ids| - 1], |ids| - 1;
    assert forall j | 0 <= j < last :: front[j] == ids[j];
    if Consecutive(ids, n) {
      assert ids[last - 1] + 1 == ids[last];
    }
  }

  lemma {:induction false} InARowMeans(ids: seq<nat>, n: nat)
    requires n >= 1
    ensures InARow(ids) >= n <==> Consecutive(ids, n)
    decreases n
  {
    if |ids| >= 2 && n > 1 {
      ConsecutiveStep(ids, n);
      InARowMeans(ids[..|ids| - 1], n - 1);
    }
  }

  /** A child that dies while its context is under way makes appspawn stop if and only if it is the
      fifth in a row whose contexts were created one right after the other. */
  lemma FiveInARow(es: seq<Event>, pid: nat)
    requires CanRun(Initial(), es)
    requires var s := Run(Initial(), es);
      !s.stopped && pid !in s.processes && Find(s.spawning, pid) < |s.spawning|
    ensures var s' := Step(Run(Initial(), es), Died(pid, false));
      s'.stopped <==> Consecutive(s'.crashed, 5)
  {
    assert CrashesCounted(Initial());
    hide InARow, Consecutive, Find, Without;
    RunCounts(Initial(), es);
    StepCounts(Run(Initial(), es), Died(pid, false));
    InARowMeans(Step(Run(Initial(), es), Died(pid, false)).crashed, 5);
  }

  lemma {:induction false} StaysStopped(s: State, es: seq<Event>)
    requires s.stopped && CanRun(s, es)
    ensures Run(s, es).stopped
    decreases |es|
  {
    if es != [] {
      hide Find, Without, Kept, Lost;
      StaysStopped(Step(s, es[0]), es[1..]);
    }
  }

  // ---------- what a good reply says ----------

  // A reply of success names a process.
  predicate NamesProcess(r: Reply) {
    r.result == 0 ==> r.pid > 0
  }

  predicate AllNameProcesses(s: State) {
    forall r | r in s.replies :: NamesProcess(r)
  }

  predicate PositiveChildren(s: State) {
    forall c | c in s.spawning :: c.pid > 0
  }

  predicate IsNotWatched(e: Event) {
    e.Request? && e.spawn.NotWatched?
  }

  // The number of a child that was made is above zero.
  predicate MakesChildren(e: Event) {
    e.Request? && e.spawn.Spawned? ==> e.spawn.pid > 0
  }

  lemma StepReplies(s: State, e: Event)
    requires Enabled(s, e)
    ensures s.replies <= Step(s, e).replies
  {
    hide Find, Without, Kept, Lost;
  }

  // What is replied stays replied.
  lemma {:induction false} RepliesStay(s: State, es: seq<Event>)
    requires CanRun(s, es)
    ensures s.replies <= Run(s, es).replies
    decreases |es|
  {
    if es != [] {
      StepReplies(s, es[0]);
      RepliesStay(Step(s, es[0]), es[1..]);
      hide Step;
    }
  }

  lemma PositiveStep(s: State, e: Event)
    requires PositiveChildren(s) && Enabled(s, e) && MakesChildren(e)
    ensures PositiveChildren(Step(s, e))
  {
    hide Lost;
    if e.Close? { KeptAreOld(s.spawning, e.connection); }
  }

  lemma GoodStep(s: State, e: Event)
    requires AllNameProcesses(s) && PositiveChildren(s) && Enabled(s, e)
    ensures AllNameProcesses(Step(s, e)) <==> !IsNotWatched(e)
  {
    hide Without, Kept, Lost;
    if IsNotWatched(e) {
      assert Reply(s.accepted, 0, 0) in Step(s, e).replies;
    } else if e.Response? {
      assert s.spawning[e.context] in s.spawning;
    }
  }

  lemma {:induction false} BadReplyStays(s: State, es: seq<Event>)
    requires CanRun(s, es) && !AllNameProcesses(s)
    ensures !AllNameProcesses(Run(s, es))
  {
    RepliesStay(s, es);
    var r :| r in s.replies && !NamesProcess(r);
    assert r in Run(s, es).replies;
  }

  lemma {:induction false} GoodRun(s: State, es: seq<Event>)
    requires AllNameProcesses(s) && PositiveChildren(s) && CanRun(s, es)
    requires forall e | e in es :: MakesChildren(e)
    ensures AllNameProcesses(Run(s, es)) <==> forall e | e in es :: !IsNotWatched(e)
    decreases |es|
  {
    if es != [] {
      assert es[0] in es && forall e | e in es :: e == es[0] || e in es[1..];
      GoodStep(s, es[0]);
      if IsNotWatched(es[0]) {
        BadReplyStays(Step(s, es[0]), es[1..]);
      } else {
        PositiveStep(s, es[0]);
        GoodRun(Step(s, es[0]), es[1..]);
      }
    }
  }

  /** In a run whose children have numbers above zero, every reply of success names a process if and
      only if no request came to a child that could not be watched. */
  lemma GoodRepliesIff(es: seq<Event>)
    requires CanRun(Initial(), es) && forall e | e in es :: MakesChildren(e)
    ensures (forall r | r in Run(Initial(), es).replies :: r.result == 0 ==> r.pid > 0)
       <==> forall e | e in es :: !IsNotWatched(e)
  {
    GoodRun(Initial(), es);
    assert AllNameProcesses(Run(Initial(), es))
      <==> forall r | r in Run(Initial(), es).replies :: r.result == 0 ==> r.pid > 0;
  }

  // The shortest run to a reply of success that names no process: the child is made, killed again,
  // and the request answered with the result of making it.
  lemma SuccessWithoutProcess(connection: nat, pid: nat) returns (es: seq<Event>)
    requires pid > 0
    ensures CanRun(Initial(), es) && forall e | e in es :: MakesChildren(e)
    ensures Run(Initial(), es).replies == [Reply(0, 0, 0)] && Run(Initial(), es).spawning == []
  {
    es := [Request(connection, NotWatched(pid))];
    assert es[1..] == [];
  }

  // ---------- the handlers ----------

  // ---------- what each event replies, and to whom ----------

  // The reply that an event sends, if any: to a request that gets no further, at once; to a context, when its child
  // answers, with the child's result and number, is waited for too long, or dies before it is known.
  function ReplyTo(s: State, e: Event): Option<Reply>
    requires Enabled(s, e)
  {
    match e
    case Request(_, BadMessage(result)) => Some(Reply(s.accepted, result, 0))
    case Request(_, NoContext) => Some(Reply(s.accepted, SYSTEM_ERROR, 0))
    case Request(_, NoChild(result)) => Some(Reply(s.accepted, result, 0))
    case Request(_, NotWatched(_)) => Some(Reply(s.accepted, 0, 0))
    case Response(i, result) => Some(Reply(s.spawning[i].request, result, s.spawning[i].pid))
    case Timeout(i) => Some(Reply(s.spawning[i].request, SPAWN_TIMEOUT, 0))
    case Died(pid, _) =>
      var i := Find(s.spawning, pid);
      if pid in s.processes || i == |s.spawning| then None else Some(Reply(s.spawning[i].request, CHILD_CRASH, 0))
    case _ => None
  }

  function RepliesTo(s: State, es: seq<Event>): seq<Reply>
    requires CanRun(s, es)
    decreases |es|
  {
    if es == [] then []
    else (match ReplyTo(s, es[0]) case None => [] case Some(r) => [r]) + RepliesTo(Step(s, es[0]), es[1..])
  }

  lemma StepRepliesTo(s: State, e: Event)
    requires Enabled(s, e)
    ensures Step(s, e).replies == s.replies + match ReplyTo(s, e) case None => [] case Some(r) => [r]
  {
    hide Find, Without, Kept, Lost;
  }

  lemma {:induction false} RunRepliesTo(s: State, es: seq<Event>)
    requires CanRun(s, es)
    ensures Run(s, es).replies == s.replies + RepliesTo(s, es)
    decreases |es|
  {
    if es != [] {
      hide Step, ReplyTo;
      StepRepliesTo(s, es[0]);
      RunRepliesTo(Step(s, es[0]), es[1..]);
    }
  }

  /** In every run the replies are those of its events, in their order: each with the result and the process number
      that its event calls for. */
  lemma RepliesAreOfEvents(es: seq<Event>)
    requires CanRun(Initial(), es)
    ensures Run(Initial(), es).replies == RepliesTo(Initial(), es)
  {
    RunRepliesTo(Initial(), es);
  }

  // The requests so far, and those of them for which a context was made.
  function Requests(es: seq<Event>): nat {
    if es == [] then 0 else Requests(es[..|es| - 1]) + (if es[|es| - 1].Request? then 1 else 0)
  }

  function Created(es: seq<Event>): nat {
    if es == [] then 0
    else
      var e := es[|es| - 1];
      Created(es[..|es| - 1]) + (if e.Request? && !e.spawn.BadMessage? && !e.spawn.NoContext? then 1 else 0)
  }

  // Event k is the request that the context is for; both are numbered in their order.
  predicate IsFor(es: seq<Event>, k: nat, c: Context) {
    && k < |es| && es[k] == Request(c.connection, Spawned(c.pid))
    && c.request == Requests(es[..k]) && c.id == Created(es[..k]) + 1
  }

  ghost predicate From(s: State, es: seq<Event>) {
    && s.accepted == Requests(es) && s.lastId == Created(es)
    && forall c | c in s.spawning :: exists k :: IsFor(es, k, c)
  }

  lemma StillFor(es: seq<Event>, e: Event, k: nat, c: Context)
    requires IsFor(es, k, c)
    ensures IsFor(es + [e], k, c)
  {
    assert (es + [e])[..k] == es[..k];
  }

  lemma NewContextIsFor(es: seq<Event>, connection: nat, pid: nat)
    ensures IsFor(es + [Request(connection, Spawned(pid))], |es|,
                  Context(Created(es) + 1, Requests(es), connection, pid))
  {
    assert (es + [Request(connection, Spawned(pid))])[..|es|] == es;
  }

  // An event leaves contexts that were there before, and makes one for a request that gets a child.
  lemma ContextsAfter(s: State, e: Event, c: Context)
    requires Enabled(s, e) && c in Step(s, e).spawning
    ensures || c in s.spawning
            || (e.Request? && e.spawn.Spawned? && c == Context(s.lastId + 1, s.accepted, e.connection, e.spawn.pid))
  {
    hide Lost;
    if e.Close? { KeptAreOld(s.spawning, e.connection); }
  }

  lemma StepFrom(s: State, e: Event, es: seq<Event>)
    requires From(s, es) && Enabled(s, e)
    ensures From(Step(s, e), es + [e])
  {
    assert (es + [e])[..|es + [e]| - 1] == es;
    forall c | c in Step(s, e).spawning ensures exists k :: IsFor(es + [e], k, c) {
      ContextsAfter(s, e, c);
      if c in s.spawning {
        var k :| IsFor(es, k, c);
        StillFor(es, e, k, c);
      } else {
        NewContextIsFor(es, e.connection, e.spawn.pid);
      }
    }
    hide Find, Without, Kept, Lost, IsFor;
  }

  lemma {:induction false} RunFrom(s: State, before: seq<Event>, es: seq<Event>)
    requires From(s, before) && CanRun(s, es)
    ensures From(Run(s, es), before + es)
    decreases |es|
  {
    if es == [] {
      assert before + es == before;
    } else {
      hide Step, From;
      StepFrom(s, es[0], before);
      RunFrom(Step(s, es[0]), before + [es[0]], es[1..]);
      assert before + [es[0]] + es[1..] == before + es;
    }
  }

  /** In every run, contexts and messages are numbered in the order of the requests, and each context under way is
      that of a request, with its connection and the child that was made for it. */
  lemma ContextsAreOfRequests(es: seq<Event>)
    requires CanRun(Initial(), es)
    ensures var s := Run(Initial(), es);
      && s.accepted == Requests(es) && s.lastId == Created(es)
      && forall c | c in s.spawning :: exists k :: IsFor(es, k, c)
  {
    RunFrom(Initial(), [], es);
    assert [] + es == es;
  }

  // The events that make the loop end.
  predicate Stops(s: State, e: Event) {
    || e.Terminate?
    || (e.Died? && e.pid in s.processes && e.webSpawner)
    || (e.Died? && e.pid !in s.processes && Find(s.spawning, e.pid) < |s.spawning|
        && Consecutive(s.crashed + [s.spawning[Find(s.spawning, e.pid)].id], 5))
  }

  lemma StopsWhen(s: State, e: Event)
    requires CrashesCounted(s) && Enabled(s, e)
    ensures Step(s, e).stopped <==> s.stopped || Stops(s, e)
    ensures Step(s, e).processes
         == if Stops(s, e) then {}
            else if e.Response? && e.result == 0 then s.processes + {s.spawning[e.context].pid}
            else if e.Died? then s.processes - {e.pid}
            else s.processes
  {
    hide InARow, Consecutive, Without, Kept, Lost;
    StepCounts(s, e);
    if e.Died? && e.pid !in s.processes && Find(s.spawning, e.pid) < |s.spawning| {
      var now := s.crashed + [s.spawning[Find(s.spawning, e.pid)].id];
      assert Step(s, e).crashed == now;
      InARowMeans(now, 5);
    }
  }

  /** In every run: appspawn is stopped by the termination signal, by the death of a known web spawner, or by the
      fifth crash in a row, and by nothing else. */
  lemma StopsIff(es: seq<Event>, e: Event)
    requires CanRun(Initial(), es) && Enabled(Run(Initial(), es), e)
    ensures var s := Run(Initial(), es); Step(s, e).stopped <==> s.stopped || Stops(s, e)
  {
    InitialCounts();
    RunCounts(Initial(), es);
    StopsWhen(Run(Initial(), es), e);
  }

  lemma InitialCounts()
    ensures CrashesCounted(Initial())
  {
  }

  /** In every run: a process is known from the good answer of its child until it dies or appspawn is stopped. */
  lemma KnownIff(es: seq<Event>, e: Event, p: nat)
    requires CanRun(Initial(), es) && Enabled(Run(Initial(), es), e)
    ensures var s := Run(Initial(), es);
      p in Step(s, e).processes
      <==> !Stops(s, e) && ((e.Response? && e.result == 0 && s.spawning[e.context].pid == p)
                            || (p in s.processes && !(e.Died? && e.pid == p)))
  {
    InitialCounts();
    RunCounts(Initial(), es);
    hide Step, Stops, Run;
    StopsWhen(Run(Initial(), es), e);
  }

  class Server {
    var spawning: seq<Context>
    var processes: set<nat>
    var lastId: nat
    var lastDiedAppId: nat
    var crashTimes: nat
    var stopped: bool
    var replies: seq<Reply>
    ghost var accepted: nat
    ghost var dropped: seq<nat>
    ghost var crashed: seq<nat>

    constructor ()
      ensures Now() == Initial()
    {
      spawning, processes, lastId, lastDiedAppId, crashTimes, stopped := [], {}, 0, 0, 0, false;
      replies, accepted, dropped, crashed := [], 0, [], [];
    }

    ghost function Now(): State
      reads this
    {
      State(spawning, processes, lastId, lastDiedAppId, crashTimes, stopped, accepted, replies, dropped, crashed)
    }

    method SendResponse(request: nat, result: int, pid: nat)
      modifies this`replies
      ensures replies == old(replies) + [Reply(request, result, pid)]
    {
      replies := replies + [Reply(request, result, pid)];
    }

    method DeleteContext(i: nat)
      requires i < |spawning|
      modifies this`spawning
      ensures spawning == Without(old(spawning), i)
    {
      spawning := spawning[..i] + spawning[i + 1..];
    }

    // request is the number of the message.
    method ProcessSpawnReqMsg(connection: nat, request: nat, spawn: Spawn)
      requires request == accepted && Enabled(Now(), Request(connection, spawn))
      modifies this
      ensures Now() == Step(old(Now()), Request(connection, spawn))
    {
      accepted := accepted + 1;
      match spawn
      case BadMessage(result) =>
        SendResponse(request, result, 0);
      case NoContext =>
        SendResponse(request, SYSTEM_ERROR, 0);
      case NoChild(result) =>
        lastId := lastId + 1;
        SendResponse(request, result, 0);
      case NotWatched(_) =>
        lastId := lastId + 1;
        var ret := 0;
        SendResponse(request, ret, 0);
      case Spawned(pid) =>
        lastId := lastId + 1;
        spawning := spawning + [Context(lastId, request, connection, pid)];
    }

    // True when the context is still there.
    method ProcessChildFdCheck(i: nat, result: int) returns (goOn: bool)
      requires i < |spawning|
      modifies this`replies, this`spawning
      ensures goOn == (result == 0)
      ensures goOn ==> replies == old(replies) && spawning == old(spawning)
      ensures !goOn ==> Now() == Finish(old(Now()), i, result, old(spawning)[i].pid)
    {
      if result != 0 {
        SendResponse(spawning[i].request, result, spawning[i].pid);
        DeleteContext(i);
        return false;
      }
      return true;
    }

    method ProcessChildResponse(i: nat, result: int)
      requires Enabled(Now(), Response(i, result))
      modifies this
      ensures Now() == Step(old(Now()), Response(i, result))
    {
      var goOn := ProcessChildFdCheck(i, result);
      if !goOn { return; }
      processes := processes + {spawning[i].pid};
      SendResponse(spawning[i].request, 0, spawning[i].pid);
      DeleteContext(i);
    }

    method WaitChildTimeout(i: nat)
      requires Enabled(Now(), Timeout(i))
      modifies this
      ensures Now() == Step(old(Now()), Timeout(i))
    {
      SendResponse(spawning[i].request, SPAWN_TIMEOUT, 0);
      DeleteContext(i);
    }

    method FindContext(pid: nat) returns (i: nat)
      ensures i == Find(spawning, pid)
    {
      i := 0;
      while i < |spawning| && spawning[i].pid != pid
        invariant i <= |spawning| && Find(spawning, pid) == i + Find(spawning[i..], pid)
      {
        i := i + 1;
      }
    }

    method StopAppSpawn()
      modifies this`processes, this`stopped
      ensures Now() == Stopped(old(Now()))
    {
      processes := {};
      stopped := true;
    }

    method WaitChildDied(pid: nat)
      modifies this
      ensures Now() == ChildDied(old(Now()), pid)
    {
      var i := FindContext(pid);
      if i < |spawning| {
        var id := spawning[i].id;
        if id == lastDiedAppId + 1 {
          crashTimes := crashTimes + 1;
        } else {
          crashTimes := 1;
        }
        lastDiedAppId := id;
        crashed := crashed + [id];
        SendResponse(spawning[i].request, CHILD_CRASH, 0);
        DeleteContext(i);
        if crashTimes >= MAX_CRASH_TIME { StopAppSpawn(); }
      }
    }

    method HandleDiedPid(pid: nat, webSpawner: bool)
      modifies this
      ensures Now() == Step(old(Now()), Died(pid, webSpawner))
    {
      if pid !in processes {
        WaitChildDied(pid);
        return;
      }
      processes := processes - {pid};
      if webSpawner { StopAppSpawn(); }
    }

    method OnTerminate()
      modifies this
      ensures Now() == Step(old(Now()), Terminate)
    {
      StopAppSpawn();
    }

    // Goes through the contexts and deletes those of the connection.
    method OnClose(connection: nat)
      modifies this
      ensures Now() == Step(old(Now()), Close(connection))
    {
      hide Without, Kept, Lost;
      NothingKept(connection);
      var i := 0;
      ghost var done: seq<Context>, left := [], spawning;
      while i < |spawning|
        invariant i == |done| && spawning == done + left
        invariant Kept(old(spawning), connection) == done + Kept(left, connection)
        invariant dropped + Lost(left, connection) == old(dropped) + Lost(old(spawning), connection)
        invariant Now() == old(Now()).(spawning := spawning, dropped := dropped)
        decreases |left|
      {
        assert spawning[i] == left[0];
        KeptAndLostStep(left, connection);
        if spawning[i].connection == connection {
          assert dropped + ([left[0].request] + Lost(left[1..], connection))
              == (dropped + [left[0].request]) + Lost(left[1..], connection);
          dropped := dropped + [spawning[i].request];
          WithoutMiddle(done, left);
          DeleteContext(i);
        } else {
          assert done + ([left[0]] + Kept(left[1..], connection)) == (done + [left[0]]) + Kept(left[1..], connection);
          assert done + left == (done + [left[0]]) + left[1..];
          i, done := i + 1, done + [left[0]];
        }
        left := left[1..];
      }
      assert left == [];
    }
  }

  lemma KeptAndLostStep(cs: seq<Context>, connection: nat)
    requires cs != []
    ensures cs[0].connection == connection ==> Kept(cs, connection) == Kept(cs[1..], connection)
    ensures cs[0].connection == connection ==> Lost(cs, connection) == [cs[0].request] + Lost(cs[1..], connection)
    ensures cs[0].connection != connection ==> Kept(cs, connection) == [cs[0]] + Kept(cs[1..], connection)
    ensures cs[0].connection != connection ==> Lost(cs, connection) == Lost(cs[1..], connection)
  {
  }

  lemma NothingKept(connection: nat)
    ensures Kept([], connection) == [] && Lost([], connection) == []
  {
  }

  lemma WithoutMiddle(a: seq<Context>, b: seq<Context>)
    requires b != []
    ensures Without(a + b, |a|) == a + b[1..]
  {
  }
}
