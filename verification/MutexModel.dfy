/** The mutex of ipc.c with priority inheritance, as a step machine over its sections with interrupts disabled. */
module MutexModel {
  import opened Rings
  import opened IpcLists

  const NULL := -1
  const NOBODY := 0xff   // original_priority of a free mutex

  datatype Phase =
    | Outside
    | Waiting(timeout: int)
    | Granted                 // woken as the owner, not yet returned from rt_mutex_take
    | Late                    // woken by its timer

  /** prio is the current priority of every thread; smaller is more urgent. */
  datatype Mutex = Mutex(order: Order, prio: seq<int>, phases: seq<Phase>,
                         value: int, owner: int, original: int, hold: int, waiters: seq<int>)

  datatype Action =
    | Take(thread: int, timeout: int)
    | Release(thread: int)
    | Resume(thread: int)
    | Expire(thread: int)

  datatype Outcome =
    | Taken(thread: int)
    | Released(thread: int)
    | Blocked(thread: int)
    | TimedOut(thread: int)
    | NotOwner(thread: int)
    | Expired(thread: int)

  datatype Result = Result(state: Mutex, outcome: Outcome)

  predicate Thread(s: Mutex, t: int) { 0 <= t < |s.phases| == |s.prio| }

  function Lift(prio: seq<int>, t: int, p: int): seq<int>
    requires 0 <= t < |prio|
  {
    if p < prio[t] then prio[t := p] else prio
  }

  ghost function TakeStep(s: Mutex, t: int, timeout: int): Result
    requires Good(s) && Thread(s, t)
  {
    if s.owner == t then
      Result(s.(hold := s.hold + 1), Taken(t))
    else if s.value > 0 then
      Result(s.(value := s.value - 1, owner := t, original := s.prio[t], hold := s.hold + 1), Taken(t))
    else if timeout == 0 then
      Result(s, TimedOut(t))
    else
      var prio := Lift(s.prio, s.owner, s.prio[t]);
      Result(s.(prio := prio, phases := s.phases[t := Waiting(timeout)], waiters := Suspended(s.order, s.waiters, prio, t)), Blocked(t))
  }

  ghost function ReleaseStep(s: Mutex, t: int): Result
    requires Good(s) && Thread(s, t)
  {
    if t != s.owner then
      Result(s, NotOwner(t))
    else if s.hold > 1 then
      Result(s.(hold := s.hold - 1), Released(t))
    else
      var prio := s.prio[t := s.original];
      if s.waiters == [] then
        Result(s.(prio := prio, value := s.value + 1, owner := NULL, original := NOBODY, hold := 0), Released(t))
      else
        var u := s.waiters[0];
        assert u in s.waiters;
        Result(s.(prio := prio, owner := u, original := prio[u], waiters := s.waiters[1..], phases := s.phases[u := Granted]), Released(t))
  }

  ghost predicate Enabled(s: Mutex, a: Action) {
    && Thread(s, a.thread)
    && match a
       case Take(t, _) => s.phases[t].Outside?
       case Release(t) => s.phases[t].Outside?
       case Resume(t) => s.phases[t].Granted? || s.phases[t].Late?
       case Expire(t) => s.phases[t].Waiting? && s.phases[t].timeout > 0
  }

  ghost function Step(s: Mutex, a: Action): Result
    requires Good(s) && Enabled(s, a)
  {
    match a
    case Take(t, timeout) => TakeStep(s, t, timeout)
    case Release(t) => ReleaseStep(s, t)
    case Resume(t) => Result(s.(phases := s.phases[t := Outside]), if s.phases[t].Granted? then Taken(t) else TimedOut(t))
    case Expire(t) => Result(s.(phases := s.phases[t := Late], waiters := Unlisted(s.waiters, t)), Expired(t))
  }

  // ---- the invariant ----

  /** Free, or owned by a thread that does not wait; one reading of three fields. */
  ghost predicate Owned(s: Mutex) {
    && |s.prio| == |s.phases|
    && (s.owner == NULL <==> s.value == 1) && (s.owner == NULL <==> s.hold == 0)
    && 0 <= s.value <= 1 && s.hold >= 0
    && (s.owner != NULL ==> Thread(s, s.owner) && !s.phases[s.owner].Waiting?)
    && (s.waiters != [] ==> s.owner != NULL)
    && forall t :: Thread(s, t) && s.phases[t].Granted? ==> s.owner == t && s.hold == 1
  }

  ghost predicate Listed(s: Mutex) {
    && |s.prio| == |s.phases| && Distinct(s.waiters) && Threads(s.waiters, |s.phases|)
    && (forall t :: Thread(s, t) ==> (t in s.waiters <==> s.phases[t].Waiting?))
    && (s.order == Prio ==> Urgent(s.waiters, s.prio))
  }

  /** The owner is at least as urgent as everybody who waits for it. */
  ghost predicate Inherits(s: Mutex) {
    forall w :: w in s.waiters && Thread(s, w) && Thread(s, s.owner) ==> s.prio[s.owner] <= s.prio[w]
  }

  ghost predicate Good(s: Mutex) {
    Owned(s) && Listed(s) && (s.order == Prio ==> Inherits(s))
  }

  /** Only the owner may run at another priority than its own, which the mutex remembers; it is never less urgent. */
  ghost predicate Lent(s: Mutex, base: seq<int>) {
    && |base| == |s.prio| == |s.phases|
    && (forall t :: Thread(s, t) && t != s.owner ==> s.prio[t] == base[t])
    && (Thread(s, s.owner) ==> s.original == base[s.owner] && s.prio[s.owner] <= base[s.owner])
  }

  // ---- every step keeps it ----

  lemma LiftUrgent(s: Mutex, prio: seq<int>)
    requires Listed(s) && Owned(s) && |prio| == |s.prio|
    requires forall t :: Thread(s, t) && t != s.owner ==> prio[t] == s.prio[t]
    ensures s.order == Prio ==> Urgent(s.waiters, prio)
  {
    assert s.owner !in s.waiters;
  }

  lemma TakeGood(s: Mutex, t: int, timeout: int)
    requires Good(s) && Enabled(s, Take(t, timeout))
    ensures Good(TakeStep(s, t, timeout).state)
  {
    hide Suspended, Urgent;
    if s.owner != t && s.value == 0 && timeout != 0 {
      var prio := Lift(s.prio, s.owner, s.prio[t]);
      LiftUrgent(s, prio);
      assert t !in s.waiters;
      SuspendedMembers(s.order, s.waiters, prio, t);
      if s.order == Prio { SuspendedUrgent(s.waiters, prio, t); }
    }
  }

  lemma HeadFirst(s: Mutex, prio: seq<int>)
    requires s.waiters != [] && Urgent(s.waiters, prio)
    ensures forall w :: w in s.waiters[1..] ==> 0 <= w < |prio| && prio[s.waiters[0]] <= prio[w]
    ensures Urgent(s.waiters[1..], prio)
  {
    assert forall i :: 0 <= i < |s.waiters| - 1 ==> s.waiters[1..][i] == s.waiters[i + 1];
  }

  lemma ReleaseGood(s: Mutex, t: int)
    requires Good(s) && Enabled(s, Release(t))
    ensures Good(ReleaseStep(s, t).state)
  {
    hide Urgent;
    if t == s.owner && s.hold == 1 {
      var prio := s.prio[t := s.original];
      LiftUrgent(s, prio);
      if s.waiters != [] {
        TailDistinct(s.waiters);
        assert s.waiters[0] in s.waiters;
        assert forall i :: 0 <= i < |s.waiters| - 1 ==> s.waiters[1..][i] == s.waiters[i + 1];
        if s.order == Prio { HeadFirst(s, prio); }
      }
    }
  }

  lemma ExpireGood(s: Mutex, t: int)
    requires Good(s) && Enabled(s, Expire(t))
    ensures Good(Step(s, Expire(t)).state)
  {
    hide Unlisted, Urgent;
    UnlistedUrgent(s.waiters, s.prio, t);
    UnlistedMember(s.waiters, t, t);
    forall x
      ensures x in Unlisted(s.waiters, t) <==> x in s.waiters && x != t
    {
      UnlistedMember(s.waiters, t, x);
    }
  }

  lemma StepGood(s: Mutex, a: Action)
    requires Good(s) && Enabled(s, a)
    ensures Good(Step(s, a).state)
  {
    hide TakeStep, ReleaseStep;
    match a
    case Take(t, timeout) => TakeGood(s, t, timeout);
    case Release(t) => ReleaseGood(s, t);
    case Resume(t) =>
    case Expire(t) => ExpireGood(s, t);
  }

  /** Priorities are lent to the owner and given back with the final release. */
  lemma StepLent(s: Mutex, a: Action, base: seq<int>)
    requires Good(s) && Enabled(s, a) && Lent(s, base)
    ensures Lent(Step(s, a).state, base)
  {
    hide Urgent, Suspended, Unlisted;
    if s.waiters != [] { assert s.waiters[0] in s.waiters; }
  }

  // ---- inheritance in first-in first-out mode ----

  /** A step keeps the owner at least as urgent as its waiters, except a release that hands the mutex
      to a thread that is less urgent than another waiter. */
  lemma InheritsExactly(s: Mutex, a: Action, base: seq<int>)
    requires Good(s) && Enabled(s, a) && Lent(s, base) && Inherits(s)
    ensures Inherits(Step(s, a).state) <==>
            (a == Release(s.owner) && s.hold == 1 && s.waiters != [] ==> HeadMostUrgent(s, base))
  {
    hide Urgent;
    match a
    case Take(t, timeout) =>
      if s.owner != NULL { SuspendedMembers(s.order, s.waiters, Lift(s.prio, s.owner, s.prio[t]), t); }
    case Release(t) =>
      if t == s.owner && s.hold == 1 && s.waiters != [] { HandOffInherits(s, base); }
    case Resume(t) =>
    case Expire(t) =>
      forall x
        ensures x in Unlisted(s.waiters, t) <==> x in s.waiters && x != t
      {
        UnlistedMember(s.waiters, t, x);
      }
  }

  /** The thread that has waited longest is also the most urgent one. */
  ghost predicate HeadMostUrgent(s: Mutex, base: seq<int>)
    requires s.waiters != []
  {
    forall w :: w in s.waiters && 0 <= w < |base| && 0 <= s.waiters[0] < |base| ==> base[s.waiters[0]] <= base[w]
  }

  lemma HandOffInherits(s: Mutex, base: seq<int>)
    requires Good(s) && Lent(s, base) && Thread(s, s.owner) && s.hold == 1 && s.waiters != []
    ensures Inherits(ReleaseStep(s, s.owner).state) <==> HeadMostUrgent(s, base)
  {
    hide Urgent;
    var n := ReleaseStep(s, s.owner).state;
    TailDistinct(s.waiters);
    assert s.waiters[0] in s.waiters;
    assert Lent(n, base) by { StepLentRelease(s, base); }
    if Inherits(n) {
      forall w | w in s.waiters
        ensures base[s.waiters[0]] <= base[w]
      {
        if w != s.waiters[0] { assert w in n.waiters; }
      }
    }
    if HeadMostUrgent(s, base) {
      forall w | w in n.waiters
        ensures n.prio[n.owner] <= n.prio[w]
      {
        assert w in s.waiters;
      }
    }
  }

  lemma StepLentRelease(s: Mutex, base: seq<int>)
    requires Good(s) && Lent(s, base) && Thread(s, s.owner)
    ensures Lent(ReleaseStep(s, s.owner).state, base)
  {
    hide Urgent;
    if s.waiters != [] { assert s.waiters[0] in s.waiters; }
  }

  // ---- what every call answers ----

  /** rt_mutex_take is granted at once exactly if the mutex is free or the caller owns it; a caller that does not wait is
      refused, and any other one waits, and lends the owner its priority if it is more urgent. */
  lemma TakeAnswer(s: Mutex, t: int, timeout: int)
    requires Good(s) && Enabled(s, Take(t, timeout))
    ensures var r := Step(s, Take(t, timeout)); var n := r.state;
      && (r.outcome == Taken(t) <==> s.owner == NULL || s.owner == t)
      && (r.outcome == TimedOut(t) <==> s.owner != NULL && s.owner != t && timeout == 0)
      && (r.outcome == Blocked(t) <==> s.owner != NULL && s.owner != t && timeout != 0)
      && n.order == s.order
      && (r.outcome == Taken(t) ==>
            && n.owner == t && n.hold == s.hold + 1 && n.value == 0
            && n.original == (if s.owner == t then s.original else s.prio[t])
            && n.prio == s.prio && n.waiters == s.waiters && n.phases == s.phases)
      && (r.outcome == TimedOut(t) ==> n == s)
      && (r.outcome == Blocked(t) ==>
            && n.owner == s.owner && n.hold == s.hold && n.value == s.value && n.original == s.original
            && n.phases == s.phases[t := Waiting(timeout)]
            && Joins(s.order, s.waiters, n.waiters, s.prio, t)
            && n.prio[s.owner] == (if s.prio[t] < s.prio[s.owner] then s.prio[t] else s.prio[s.owner])
            && forall u :: Thread(s, u) && u != s.owner ==> n.prio[u] == s.prio[u])
  {
    hide Suspended, Urgent, Joins;
    if s.owner != NULL && s.owner != t && timeout != 0 {
      var prio := Lift(s.prio, s.owner, s.prio[t]);
      LiftUrgent(s, prio);
      SuspendedJoins(s.order, s.waiters, prio, t);
      JoinsOnly(s, prio, Suspended(s.order, s.waiters, prio, t), t);
    }
  }

  /** The owner does not wait, so its priority does not matter for the list. */
  lemma JoinsOnly(s: Mutex, prio: seq<int>, r: seq<int>, t: int)
    requires Good(s) && Thread(s, t) && t != s.owner && |prio| == |s.prio|
    requires forall u :: Thread(s, u) && u != s.owner ==> prio[u] == s.prio[u]
    requires Joins(s.order, s.waiters, r, prio, t)
    ensures Joins(s.order, s.waiters, r, s.prio, t)
  {
    assert forall i :: 0 <= i < |s.waiters| ==> s.waiters[i] in s.waiters && s.waiters[i] != s.owner;
  }

  /** rt_mutex_release fails exactly if the caller is not the owner. Otherwise one hold is given back; with the last one
      the owner gets its own priority back, and the first waiter owns the mutex, or nobody if there is none. */
  lemma ReleaseAnswer(s: Mutex, t: int)
    requires Good(s) && Enabled(s, Release(t))
    ensures var r := Step(s, Release(t)); var n := r.state;
      && (r.outcome == NotOwner(t) <==> s.owner != t) && (r.outcome == Released(t) <==> s.owner == t)
      && n.order == s.order
      && (s.owner != t ==> n == s)
      && (s.owner == t && s.hold > 1 ==> n == s.(hold := s.hold - 1))
      && (s.owner == t && s.hold == 1 ==>
            && n.prio[t] == s.original && (forall u :: Thread(s, u) && u != t ==> n.prio[u] == s.prio[u])
            && (if s.waiters == [] then n.owner == NULL && n.hold == 0 && n.value == 1 && n.waiters == [] && n.phases == s.phases
                else
                  && n.owner == s.waiters[0] && n.hold == 1 && n.value == 0 && n.original == s.prio[n.owner]
                  && s.waiters == [n.owner] + n.waiters && n.phases == s.phases[n.owner := Granted]))
  {
    hide Urgent;
    if s.waiters != [] { assert s.waiters[0] in s.waiters && s.waiters[0] != s.owner; }
  }

  /** A woken thread returns with the mutex exactly if it was handed over to it; a waiting time that runs out takes the
      thread out of the list. */
  lemma WokenAnswer(s: Mutex, t: int)
    requires Good(s)
    ensures Enabled(s, Resume(t)) ==> var r := Step(s, Resume(t));
      && (r.outcome == Taken(t) <==> s.owner == t && s.phases[t].Granted?) && (r.outcome == TimedOut(t) <==> s.phases[t].Late?)
      && r.state == s.(phases := s.phases[t := Outside])
    ensures Enabled(s, Expire(t)) ==> var r := Step(s, Expire(t));
      r.outcome == Expired(t) && Leaves(s.waiters, r.state.waiters, t) && r.state == s.(phases := s.phases[t := Late], waiters := r.state.waiters)
  {
    hide Urgent, Unlisted;
    if t in s.waiters { UnlistedLeaves(s.waiters, t); }
  }

  // ---- runs ----

  datatype History = History(state: Mutex, log: seq<Outcome>)

  ghost predicate Possible(s: Mutex, acts: seq<Action>)
    requires Good(s)
    decreases |acts|
  {
    acts == [] || (Enabled(s, acts[0]) && (StepGood(s, acts[0]); Possible(Step(s, acts[0]).state, acts[1..])))
  }

  ghost function Run(s: Mutex, acts: seq<Action>): History
    requires Good(s) && Possible(s, acts)
    decreases |acts|
  {
    if acts == [] then History(s, [])
    else
      StepGood(s, acts[0]);
      var r := Step(s, acts[0]);
      var h := Run(r.state, acts[1..]);
      h.(log := [r.outcome] + h.log)
  }

  /** A free mutex and threads that run at their own priorities. */
  ghost function Init(order: Order, base: seq<int>): (s: Mutex)
    ensures Good(s) && Lent(s, base)
  {
    Mutex(order, base, seq(|base|, i => Outside), 1, NULL, NOBODY, 0, [])
  }

  lemma {:induction false} RunGood(s: Mutex, acts: seq<Action>, base: seq<int>)
    requires Good(s) && Possible(s, acts) && Lent(s, base)
    ensures Good(Run(s, acts).state) && Lent(Run(s, acts).state, base)
    decreases |acts|
  {
    hide Good, Lent, Step;
    if acts != [] {
      StepGood(s, acts[0]);
      StepLent(s, acts[0], base);
      RunGood(Step(s, acts[0]).state, acts[1..], base);
    }
  }

  /** With RT_IPC_FLAG_PRIO no run lets a waiter be more urgent than the owner, and whoever does not own
      the mutex runs at its own priority. */
  lemma NoPriorityInversion(base: seq<int>, acts: seq<Action>)
    requires Possible(Init(Prio, base), acts)
    ensures var e := Run(Init(Prio, base), acts).state; Inherits(e) && Lent(e, base)
  {
    RunGood(Init(Prio, base), acts, base);
    RunOrder(Init(Prio, base), acts);
  }

  lemma {:induction false} RunOrder(s: Mutex, acts: seq<Action>)
    requires Good(s) && Possible(s, acts)
    ensures Run(s, acts).state.order == s.order && |Run(s, acts).state.phases| == |s.phases|
    decreases |acts|
  {
    hide Good, Step;
    if acts != [] {
      StepGood(s, acts[0]);
      StepThreads(s, acts[0]);
      RunOrder(Step(s, acts[0]).state, acts[1..]);
    }
  }

  // ---- a run in which inheritance is lost ----

  lemma RunCons(s: Mutex, a: Action, n: Mutex, rest: seq<Action>)
    requires Good(s) && Enabled(s, a) && Step(s, a).state == n && Good(n) && Possible(n, rest)
    ensures Possible(s, [a] + rest) && Run(s, [a] + rest).state == Run(n, rest).state
  {
    hide Good, Step;
    assert ([a] + rest)[1..] == rest;
  }

  const Owner0 := Mutex(Fifo, [5, 9, 1], [Outside, Outside, Outside], 0, 0, 5, 1, [])
  const Waiter1 := Mutex(Fifo, [5, 9, 1], [Outside, Waiting(-1), Outside], 0, 0, 5, 1, [1])
  const Waiter2 := Mutex(Fifo, [1, 9, 1], [Outside, Waiting(-1), Waiting(-1)], 0, 0, 5, 1, [1, 2])

  lemma TakesOne()
    ensures Enabled(Init(Fifo, [5, 9, 1]), Take(0, 0)) && Step(Init(Fifo, [5, 9, 1]), Take(0, 0)).state == Owner0
    ensures Good(Owner0) && Enabled(Owner0, Take(1, -1)) && Step(Owner0, Take(1, -1)).state == Waiter1
  {
    assert Waiter1.waiters == [] + [1] + [];
  }

  lemma TakesTwo()
    ensures Good(Waiter1) && Enabled(Waiter1, Take(2, -1)) && Step(Waiter1, Take(2, -1)).state == Waiter2
    ensures Good(Waiter2) && Inherits(Waiter2)
  {
    hide Good;
    TakesOne();
    StepGood(Owner0, Take(1, -1));
    SecondTake();
    StepGood(Waiter1, Take(2, -1));
    assert Thread(Waiter2, 0) && Thread(Waiter2, 1) && Thread(Waiter2, 2);
  }

  lemma SecondTake()
    requires Good(Waiter1)
    ensures Enabled(Waiter1, Take(2, -1)) && Step(Waiter1, Take(2, -1)).state == Waiter2
  {
    hide Good;
    assert [1] + [2] + [] == [1, 2];
  }

  /** Threads of priorities 5, 9 and 1 take the mutex in this order, first in first out: when the first one releases it,
      the owner at 9 keeps the waiter at 1 back. */
  lemma FifoBreaksInheritance()
    ensures var acts := [Take(0, 0)] + ([Take(1, -1)] + ([Take(2, -1)] + []));
            && Possible(Init(Fifo, [5, 9, 1]), acts)
            && var s := Run(Init(Fifo, [5, 9, 1]), acts).state;
               Good(s) && Enabled(s, Release(0)) && Inherits(s) && !Inherits(Step(s, Release(0)).state)
  {
    hide Possible, Run, Step, Good, Enabled;
    TakesOne();
    TakesTwo();
    NoActions(Waiter2);
    RunCons(Waiter1, Take(2, -1), Waiter2, []);
    RunCons(Owner0, Take(1, -1), Waiter1, [Take(2, -1)] + []);
    RunCons(Init(Fifo, [5, 9, 1]), Take(0, 0), Owner0, [Take(1, -1)] + ([Take(2, -1)] + []));
    ReleaseBreaks();
  }

  lemma NoActions(s: Mutex)
    requires Good(s)
    ensures Possible(s, []) && Run(s, []).state == s
  {}

  lemma ReleaseBreaks()
    ensures Good(Waiter2) && Enabled(Waiter2, Release(0)) && !Inherits(Step(Waiter2, Release(0)).state)
  {
    TakesTwo();
    assert [1, 2][0] == 1 && [1, 2][1] == 2;
    var n := Step(Waiter2, Release(0)).state;
    assert n.waiters == [2] && n.waiters[0] == 2 && n.owner == 1 && n.prio[1] == 9 && n.prio[2] == 1;
  }

  // ---- mutual exclusion, told from what the callers see ----

  /** Successful returns from rt_mutex_take minus successful releases of one thread. */
  function Balance(log: seq<Outcome>, t: int): int {
    if log == [] then 0
    else (if log[0] == Taken(t) then 1 else if log[0] == Released(t) then -1 else 0) + Balance(log[1..], t)
  }

  /** How often the thread has to release. */
  function Held(s: Mutex, t: int): int {
    if s.owner != t then 0
    else if Thread(s, t) && s.phases[t].Granted? then 0
    else s.hold
  }

  lemma StepHeld(s: Mutex, a: Action, t: int)
    requires Good(s) && Enabled(s, a) && Thread(s, t)
    ensures Held(Step(s, a).state, t) == Held(s, t) + Balance([Step(s, a).outcome], t)
  {
    hide Urgent, Suspended, Unlisted;
    if s.waiters != [] { assert s.waiters[0] in s.waiters; }
  }

  lemma {:induction false} RunHeld(s: Mutex, acts: seq<Action>, t: int)
    requires Good(s) && Possible(s, acts) && Thread(s, t)
    ensures Held(Run(s, acts).state, t) == Held(s, t) + Balance(Run(s, acts).log, t)
    decreases |acts|
  {
    hide Good, Step, Held;
    if acts != [] {
      var r := Step(s, acts[0]);
      StepGood(s, acts[0]);
      StepHeld(s, acts[0], t);
      StepThreads(s, acts[0]);
      RunHeld(r.state, acts[1..], t);
      assert [r.outcome][1..] == [];
      assert ([r.outcome] + Run(r.state, acts[1..]).log)[1..] == Run(r.state, acts[1..]).log;
    }
  }

  lemma StepThreads(s: Mutex, a: Action)
    requires Good(s) && Enabled(s, a)
    ensures |Step(s, a).state.phases| == |Step(s, a).state.prio| == |s.phases| == |s.prio|
    ensures Step(s, a).state.order == s.order
  {
    hide Urgent, Suspended, Unlisted;
    if s.waiters != [] { assert s.waiters[0] in s.waiters; }
  }

  /** At no moment of any run have two threads taken the mutex without releasing it as often. */
  lemma MutualExclusion(order: Order, base: seq<int>, acts: seq<Action>, t: int, u: int)
    requires Possible(Init(order, base), acts)
    requires 0 <= t < |base| && 0 <= u < |base| && t != u
    ensures Balance(Run(Init(order, base), acts).log, t) >= 0
    ensures Balance(Run(Init(order, base), acts).log, t) > 0 ==> Balance(Run(Init(order, base), acts).log, u) == 0
  {
    RunHeld(Init(order, base), acts, t);
    RunHeld(Init(order, base), acts, u);
    RunGood(Init(order, base), acts, base);
  }
}
