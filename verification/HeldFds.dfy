/** The file descriptors that init holds for a service between two of its lives: taken over by an
    update, closed by the next one or when the service stops. */
module HeldFds {
  import opened Basics

  // What an update meets: memory to be had or not, the copy done or not.
  datatype Luck = Luck(memory: bool, copied: bool)

  // The descriptors held, and how often each was taken over and closed so far.
  datatype Holding = Holding(held: seq<int>, taken: multiset<int>, closed: multiset<int>)

  // The real descriptors among the slots: a slot may hold -1 for none.
  function Real(slots: seq<int>): multiset<int> {
    multiset(slots)[-1 := 0]
  }

  function CloseAll(h: Holding): Holding {
    Holding([], h.taken, h.closed + Real(h.held))
  }

  function Take(h: Holding, fds: seq<int>): Holding {
    h.(held := fds, taken := h.taken + Real(fds))
  }

  // An update with new descriptors, at most limit of them unless as many are held already.
  function Update(h: Holding, fds: Option<seq<int>>, limit: nat, luck: Luck): (Holding, int) {
    if fds.None? then (h, -1)
    else
      var n := |fds.value|;
      if n == 0 then (h, 0)
      else if |h.held| == n then
        if luck.copied then (Take(CloseAll(h), fds.value), 0) else (CloseAll(h), -1)
      else if n > limit || !luck.memory || !luck.copied then (CloseAll(h), -1)
      else (Take(CloseAll(h), fds.value), 0)
  }

  datatype Event = Updated(fds: Option<seq<int>>, luck: Luck) | Stopped

  function Step(h: Holding, e: Event, limit: nat): Holding {
    match e
    case Updated(fds, luck) => Update(h, fds, limit, luck).0
    case Stopped => CloseAll(h)
  }

  function Run(h: Holding, es: seq<Event>, limit: nat): Holding
    decreases |es|
  {
    if es == [] then h else Run(Step(h, es[0], limit), es[1..], limit)
  }

  predicate Owned(h: Holding) {
    h.taken == Real(h.held) + h.closed
  }

  lemma {:induction false} RunKeepsOwned(h: Holding, es: seq<Event>, limit: nat)
    requires Owned(h)
    ensures Owned(Run(h, es, limit))
    decreases |es|
  {
    if es != [] {
      assert Owned(Step(h, es[0], limit));
      RunKeepsOwned(Step(h, es[0], limit), es[1..], limit);
    }
  }

  // The descriptors of the updates that return success, as often as they occur.
  function Accepted(h: Holding, es: seq<Event>, limit: nat): multiset<int>
    decreases |es|
  {
    if es == [] then multiset{}
    else
      var e := es[0];
      (if e.Updated? && e.fds.Some? && Update(h, e.fds, limit, e.luck).1 == 0 then Real(e.fds.value) else multiset{})
      + Accepted(Step(h, e, limit), es[1..], limit)
  }

  lemma {:induction false} TakenIsAccepted(h: Holding, es: seq<Event>, limit: nat)
    ensures Run(h, es, limit).taken == h.taken + Accepted(h, es, limit)
    decreases |es|
  {
    if es != [] {
      var e, h' := es[0], Step(h, es[0], limit);
      TakenIsAccepted(h', es[1..], limit);
      if e.Updated? && e.fds.Some? && e.fds.value == [] { assert Real([]) == multiset{}; }
    }
  }

  /** Over any run of updates and stops, each descriptor taken over by a successful update is held
      still or has been closed, once for each time it was taken over; and an update that fails
      keeps everything or nothing. */
  lemma HeldOrClosed(es: seq<Event>, limit: nat)
    ensures var h := Run(Holding([], multiset{}, multiset{}), es, limit);
      Accepted(Holding([], multiset{}, multiset{}), es, limit) == Real(h.held) + h.closed
  {
    var h := Holding([], multiset{}, multiset{});
    assert Real([]) == multiset{};
    RunKeepsOwned(h, es, limit);
    TakenIsAccepted(h, es, limit);
  }

  /** The number of an empty slot is never closed, in any run. */
  lemma {:induction false} EmptySlotsStay(h: Holding, es: seq<Event>, limit: nat)
    requires h.closed[-1] == 0
    ensures Run(h, es, limit).closed[-1] == 0
    decreases |es|
  {
    if es != [] { EmptySlotsStay(Step(h, es[0], limit), es[1..], limit); }
  }

  // There are as many slots as descriptors, or as many can be had.
  predicate Fits(h: Holding, fds: seq<int>, limit: nat, luck: Luck) {
    |fds| == |h.held| || (|fds| <= limit && luck.memory)
  }

  /** An update succeeds exactly if there are no new descriptors, or they fit and are copied; then it holds them and
      has closed the old.  One that fails for want of descriptors keeps everything, any other keeps nothing. */
  lemma UpdateOutcome(h: Holding, fds: Option<seq<int>>, limit: nat, luck: Luck)
    ensures var (h', r) := Update(h, fds, limit, luck);
      && (r == 0 <==> fds.Some? && (fds.value == [] || (luck.copied && Fits(h, fds.value, limit, luck))))
      && (r == 0 || r == -1)
      && (r == 0 && fds.value != [] ==>
            h'.held == fds.value && h'.taken == h.taken + Real(fds.value) && h'.closed == h.closed + Real(h.held))
      && (fds.None? || fds.value == [] ==> h' == h)
      && (r != 0 && fds.Some? ==> h'.held == [] && h'.taken == h.taken && h'.closed == h.closed + Real(h.held))
  {
  }

  // ---------- the record ----------

  class Fds {
    var fds: array?<int>
    var fdCount: nat
    ghost var taken: multiset<int>
    ghost var closed: multiset<int>
    const limit: nat

    constructor (limit: nat)
      ensures Valid() && State() == Holding([], multiset{}, multiset{}) && this.limit == limit
    {
      fds, fdCount, taken, closed := null, 0, multiset{}, multiset{};
      this.limit := limit;
    }

    // A count above zero means an array with one slot more than the count.
    ghost predicate Valid()
      reads this
    {
      fdCount > 0 ==> fds != null && fds.Length == fdCount + 1
    }

    ghost function State(): Holding
      requires Valid()
      reads this, fds
    {
      Holding(if fdCount > 0 then fds[..fdCount] else [], taken, closed)
    }

    // Closes what is in the first slots.
    method CloseEach(count: nat)
      requires fds != null && count <= fds.Length
      modifies this`closed, fds
      ensures closed == old(closed) + Real(old(fds[..count]))
    {
      ghost var slots := fds[..count];
      var i := 0;
      while i < count
        invariant 0 <= i <= count
        invariant forall k | i <= k < count :: fds[k] == slots[k]
        invariant closed == old(closed) + Real(slots[..i])
      {
        RealStep(slots, i);
        if fds[i] != -1 {
          closed := closed + multiset{fds[i]};
          fds[i] := -1;
        }
        i := i + 1;
      }
      assert slots[..count] == slots;
    }

    method CloseServiceFds(needFree: bool)
      requires Valid()
      modifies this, fds
      ensures Valid() && State() == CloseAll(old(State())) && fdCount == 0
      ensures fds == if needFree then null else old(fds)
    {
      assert Real([]) == multiset{};
      if fdCount != 0 {
        CloseEach(fdCount);
      }
      fdCount := 0;
      if needFree && fds != null {
        fds := null;
      }
    }

    method UpdaterServiceFds(newFds: Option<seq<int>>, luck: Luck) returns (ret: int)
      requires Valid()
      modifies this, fds
      ensures Valid()
      ensures (State(), ret) == Update(old(State()), newFds, limit, luck)
      ensures fds == old(fds) || fds == null || fresh(fds)
    {
      if newFds.None? { return -1; }
      var n := |newFds.value|;
      if n == 0 { return 0; }
      assert Real([]) == multiset{};
      ret := 0;
      if fdCount == n {
        CloseServiceFds(false);
        if !luck.copied {
          fds := null;
          fdCount := 0;
          ret := -1;
        } else {
          Copy(newFds.value);
          fdCount := n;
          taken := taken + Real(newFds.value);
        }
      } else {
        if fdCount > 0 {
          CloseServiceFds(true);
        }
        assert closed + Real([]) == closed;
        if n > limit { return -1; }
        if !luck.memory {
          fds := null;
          ret := -1;
        } else {
          fds := new int[n + 1](_ => 0);
          if !luck.copied {
            fds := null;
            fdCount := 0;
            return -1;
          } else {
            Copy(newFds.value);
            fdCount := n;
            taken := taken + Real(newFds.value);
          }
        }
      }
    }

    method Copy(from: seq<int>)
      requires fds != null && fds.Length == |from| + 1
      modifies fds
      ensures fds[..|from|] == from
    {
      forall i | 0 <= i < |from| { fds[i] := from[i]; }
    }
  }

  lemma RealStep(slots: seq<int>, i: nat)
    requires i < |slots|
    ensures Real(slots[..i + 1]) == Real(slots[..i]) + (if slots[i] == -1 then multiset{} else multiset{slots[i]})
  {
    assert slots[..i + 1] == slots[..i] + [slots[i]];
  }
}
