/** What every operation of the scheduler does to the states, priorities and lists of all threads. */
module SchedulerEffects {
  import opened Rings
  import opened Bitmaps
  import opened SchedulerModel

  /** All threads but t keep state and priority, and in every list their order. */
  ghost predicate OthersStay(s: Sched, n: Sched, t: int) {
    && n.max == s.max && |n.stat| == |s.stat| && |n.prio| == |s.prio| == |s.stat| && n.lists.Keys == s.lists.Keys
    && (forall u :: Thread(s, u) && u != t ==> n.stat[u] == s.stat[u] && n.prio[u] == s.prio[u])
    && (forall q :: q in s.lists ==> Unlisted(n.lists[q], t) == Unlisted(s.lists[q], t))
  }

  /** t is ready at priority p, behind all its peers. */
  ghost predicate ReadyLast(n: Sched, t: int, p: Level) {
    && Thread(n, t) && n.stat[t] == Ready && |n.prio| == |n.stat| && n.prio[t] == p
    && p in n.lists && n.lists[p] != [] && n.lists[p][|n.lists[p]| - 1] == t
  }

  ghost predicate SameRunner(s: Sched, n: Sched) { n.current == s.current && n.nest == s.nest }

  /** Unless the scheduler is locked, the first of the most urgent ready threads runs. */
  ghost predicate Chooses(s: Sched, n: Sched) {
    && n.nest == s.nest
    && if s.nest != 0 then n.current == s.current
       else
         && Thread(n, n.current) && |n.prio| == |n.stat| && n.stat[n.current] == Ready
         && n.prio[n.current] in n.lists && n.lists[n.prio[n.current]] != [] && n.lists[n.prio[n.current]][0] == n.current
         && forall u :: Thread(n, u) && n.stat[u] == Ready ==> !Below(n.prio[u], n.prio[n.current])
  }

  /** Another ready thread has the priority of the running one. */
  ghost predicate Peers(s: Sched) {
    && Thread(s, s.current) && |s.prio| == |s.stat| && s.stat[s.current] == Ready
    && exists u :: u != s.current && Thread(s, u) && s.stat[u] == Ready && s.prio[u] == s.prio[s.current]
  }

  ghost predicate Effect(s: Sched, a: Action, n: Sched, idle: int)
    requires Listed(s) && Enabled(s, a, idle)
  {
    match a
    case Startup(t, p) => OthersStay(s, n, t) && ReadyLast(n, t, p) && if s.current == NOBODY then SameRunner(s, n) else Chooses(s, n)
    case Launch(t, p) => OthersStay(s, n, t) && ReadyLast(n, t, p) && SameRunner(s, n)
    case Stop(t) =>
      if s.stat[t] == Ready then OthersStay(s, n, t) && n.stat[t] == Suspend && n.prio[t] == s.prio[t] && SameRunner(s, n)
      else n == s
    case Resume(t) =>
      if s.stat[t] == Suspend then OthersStay(s, n, t) && ReadyLast(n, t, s.prio[t]) && SameRunner(s, n)
      else n == s
    case Timeout(t) => OthersStay(s, n, t) && ReadyLast(n, t, s.prio[t]) && Chooses(s, n)
    case Yield =>
      if Peers(s) then OthersStay(s, n, s.current) && ReadyLast(n, s.current, s.prio[s.current]) && Chooses(s, n)
      else n == s
    case Rotate =>
      if Peers(s) then OthersStay(s, n, s.current) && ReadyLast(n, s.current, s.prio[s.current]) && SameRunner(s, n)
      else n == s
    case ChangePriority(t, p) =>
      && OthersStay(s, n, t) && n.prio[t] == p && SameRunner(s, n)
      && if s.stat[t] == Ready then ReadyLast(n, t, p) else n.stat[t] == s.stat[t]
    case Schedule => n == s.(current := n.current) && Chooses(s, n)
    case Enter => n == s.(nest := s.nest + 1)
    case Exit =>
      && n == s.(current := n.current, nest := n.nest) && n.nest == (if s.nest > 1 then s.nest - 1 else 0)
      && if n.nest == 0 then Chooses(s.(nest := 0), n) else n.current == s.current
  }

  // ---- the parts ----

  lemma UnlistedTwice(l: seq<int>, t: int)
    requires Distinct(l)
    ensures Unlisted(Unlisted(l, t), t) == Unlisted(l, t)
  {
    UnlistedMember(l, t, t);
  }

  lemma UnlistedLast(l: seq<int>, t: int)
    requires t !in l && Distinct(l + [t])
    ensures Unlisted(l + [t], t) == l
  {
    assert (l + [t])[|l|] == t;
    IndexUnique(l + [t], |l|);
  }

  lemma InsertedEffect(s: Sched, t: int)
    requires Listed(s) && Thread(s, t) && s.stat[t] != Ready
    ensures Listed(SchedulerModel.Inserted(s, t)) && OthersStay(s, SchedulerModel.Inserted(s, t), t) && ReadyLast(SchedulerModel.Inserted(s, t), t, s.prio[t]) && SameRunner(s, SchedulerModel.Inserted(s, t))
  {
    hide Below, Unlisted;
    InsertedListed(s, t);
    var p, n := s.prio[t], SchedulerModel.Inserted(s, t);
    assert t !in s.lists[p];
    forall q | q in s.lists
      ensures Unlisted(n.lists[q], t) == Unlisted(s.lists[q], t)
    {
      if q == p {
        assert n.lists[p] == s.lists[p] + [t];
        UnlistedLast(s.lists[p], t);
        UnlistedAbsent(s.lists[p], t);
      }
    }
  }

  lemma UnlistedAbsent(l: seq<int>, t: int)
    requires t !in l
    ensures Unlisted(l, t) == l
  {}

  lemma RemovedEffect(s: Sched, t: int)
    requires Listed(s) && Thread(s, t) && s.stat[t] == Ready
    ensures Listed(Removed(s, t, Suspend)) && OthersStay(s, Removed(s, t, Suspend), t) && SameRunner(s, Removed(s, t, Suspend))
    ensures Removed(s, t, Suspend).stat[t] == Suspend && Removed(s, t, Suspend).prio == s.prio
  {
    hide Below, Unlisted;
    RemovedListed(s, t, Suspend);
    UnlistedTwice(s.lists[s.prio[t]], t);
  }

  lemma PriorityEffect(s: Sched, t: int, p: Level)
    requires Listed(s) && Thread(s, t) && s.stat[t] != Ready && p in s.lists
    ensures Listed(s.(prio := s.prio[t := p])) && OthersStay(s, s.(prio := s.prio[t := p]), t)
  {
    hide Below, Unlisted;
    PrioListed(s, t, p);
  }

  lemma Together(s: Sched, m: Sched, n: Sched, t: int)
    requires OthersStay(s, m, t) && OthersStay(m, n, t)
    ensures OthersStay(s, n, t)
  {
    hide Unlisted;
    forall u | Thread(s, u) && u != t
      ensures n.stat[u] == s.stat[u] && n.prio[u] == s.prio[u]
    {
      assert Thread(m, u);
    }
    forall q | q in s.lists
      ensures Unlisted(n.lists[q], t) == Unlisted(s.lists[q], t)
    {
      assert q in m.lists;
    }
  }

  lemma StartedEffect(s: Sched, t: int, p: Level)
    requires Listed(s) && Thread(s, t) && s.stat[t] == Init && p in s.lists
    ensures var n := SchedulerModel.Inserted(s.(prio := s.prio[t := p]), t); Listed(n) && OthersStay(s, n, t) && ReadyLast(n, t, p) && SameRunner(s, n)
  {
    hide Below, OthersStay;
    PriorityEffect(s, t, p);
    InsertedEffect(s.(prio := s.prio[t := p]), t);
    Together(s, s.(prio := s.prio[t := p]), SchedulerModel.Inserted(s.(prio := s.prio[t := p]), t), t);
  }

  lemma MovedEffect(s: Sched, t: int, p: Level)
    requires Listed(s) && Thread(s, t) && s.stat[t] == Ready && p in s.lists
    ensures Listed(Moved(s, t, p)) && OthersStay(s, Moved(s, t, p), t) && ReadyLast(Moved(s, t, p), t, p) && SameRunner(s, Moved(s, t, p))
  {
    hide Below, OthersStay, Unlisted;
    RemovedEffect(s, t);
    var r := Removed(s, t, Suspend);
    PriorityEffect(r, t, p);
    InsertedEffect(r.(prio := r.prio[t := p]), t);
    Together(s, r, r.(prio := r.prio[t := p]), t);
    Together(s, r.(prio := r.prio[t := p]), Moved(s, t, p), t);
  }

  lemma RescheduledEffect(s: Sched, idle: int)
    requires Listed(s) && Thread(s, idle) && s.stat[idle] == Ready
    ensures SomeReady(s) && Rescheduled(s) == s.(current := Rescheduled(s).current) && Chooses(s, Rescheduled(s))
  {
    hide Below, Best;
    if s.nest == 0 {
      RescheduledIsBest(s);
      ReadyListed(s, Rescheduled(s).current);
    }
  }

  /** Only the running thread has changed since. */
  lemma StaysWith(s: Sched, m: Sched, n: Sched, t: int)
    requires OthersStay(s, m, t) && n == m.(current := n.current)
    ensures OthersStay(s, n, t)
  {}

  lemma PeersAreListed(s: Sched)
    requires Listed(s) && Thread(s, s.current)
    ensures |s.prio| == |s.stat| && s.prio[s.current] in s.lists && (Peers(s) <==> HasPeers(s))
  {
    hide Below;
    var l := s.lists[s.prio[s.current]];
    if s.stat[s.current] == Ready {
      ReadyListed(s, s.current);
      if |l| > 1 {
        var u := if l[0] == s.current then l[1] else l[0];
        assert l[0] != l[1] && u in l;
        assert Thread(s, u) && s.stat[u] == Ready && s.prio[u] == s.prio[s.current];
      }
      if Peers(s) {
        var u :| u != s.current && Thread(s, u) && s.stat[u] == Ready && s.prio[u] == s.prio[s.current];
        ReadyListed(s, u);
        assert IndexOf(l, u) != IndexOf(l, s.current);
      }
    }
  }

  // ---- the operations ----

  lemma StartupEffect(s: Sched, t: int, p: Level, idle: int)
    requires Listed(s) && Enabled(s, Startup(t, p), idle)
    ensures Effect(s, Startup(t, p), Step(s, Startup(t, p), idle), idle)
  {
    hide Below, OthersStay, Rescheduled, Chooses, SchedulerModel.Inserted;
    StartedEffect(s, t, p);
    StartupListed(s, t, p);
    KeepsReady(s, t, p, idle);
    var n := SchedulerModel.Inserted(s.(prio := s.prio[t := p]), t);
    StartedIdle(s, t, p, idle);
    RescheduledEffect(n, idle);
    StaysWith(s, n, Rescheduled(n), t);
    ChoosesNest(s, n, Rescheduled(n));
  }

  lemma StartedIdle(s: Sched, t: int, p: Level, idle: int)
    requires Listed(s) && Thread(s, t) && p in s.lists && Thread(s, idle) && s.stat[idle] == Ready
    ensures var n := SchedulerModel.Inserted(s.(prio := s.prio[t := p]), t); Thread(n, idle) && n.stat[idle] == Ready
  {}

  lemma ChoosesNest(s: Sched, m: Sched, n: Sched)
    requires Chooses(m, n) && SameRunner(s, m)
    ensures Chooses(s, n)
  {}

  lemma TimeoutEffect(s: Sched, t: int, idle: int)
    requires Listed(s) && Enabled(s, Timeout(t), idle)
    ensures Effect(s, Timeout(t), Step(s, Timeout(t), idle), idle)
  {
    hide Below, OthersStay, Rescheduled, Chooses;
    InsertedEffect(s, t);
    var n := SchedulerModel.Inserted(s, t);
    assert Thread(n, idle);
    RescheduledEffect(n, idle);
    StaysWith(s, n, Rescheduled(n), t);
    ChoosesNest(s, n, Rescheduled(n));
  }

  lemma YieldEffect(s: Sched, idle: int)
    requires Listed(s) && Enabled(s, Yield, idle)
    ensures Effect(s, Yield, Step(s, Yield, idle), idle)
  {
    hide Below, OthersStay, Rescheduled, Chooses, Peers, Unlisted;
    PeersAreListed(s);
    if HasPeers(s) {
      var n := Moved(s, s.current, s.prio[s.current]);
      MovedEffect(s, s.current, s.prio[s.current]);
      assert Thread(n, idle) && n.stat[idle] == Ready;
      RescheduledEffect(n, idle);
      StaysWith(s, n, Rescheduled(n), s.current);
      ChoosesNest(s, n, Rescheduled(n));
    }
  }

  lemma ExitEffect(s: Sched, idle: int)
    requires Listed(s) && Enabled(s, Exit, idle)
    ensures Effect(s, Exit, Step(s, Exit, idle), idle)
  {
    hide Below, Rescheduled, Chooses;
    var n := s.(nest := if s.nest - 1 <= 0 then 0 else s.nest - 1);
    OtherFields(s, s.current, n.nest);
    assert Thread(n, idle);
    RescheduledEffect(n, idle);
  }

  /** Every operation changes exactly what it should, for the thread it names, for all others, and for who runs. */
  lemma StepEffect(s: Sched, a: Action, idle: int)
    requires Listed(s) && Enabled(s, a, idle)
    ensures Effect(s, a, Step(s, a, idle), idle)
  {
    hide Below, Listed, OthersStay, Rescheduled, Chooses, Peers, SchedulerModel.Inserted, Removed, Moved;
    Shape(s);
    match a
    case Startup(t, p) => StartupEffect(s, t, p, idle);
    case Launch(t, p) => StartedEffect(s, t, p);
    case Stop(t) => if s.stat[t] == Ready { RemovedEffect(s, t); }
    case Resume(t) => if s.stat[t] == Suspend { InsertedEffect(s, t); }
    case Timeout(t) => TimeoutEffect(s, t, idle);
    case Yield => YieldEffect(s, idle);
    case Rotate =>
      PeersAreListed(s);
      if HasPeers(s) { MovedEffect(s, s.current, s.prio[s.current]); }
    case ChangePriority(t, p) => if s.stat[t] == Ready { MovedEffect(s, t, p); } else { PriorityEffect(s, t, p); }
    case Schedule => RescheduledEffect(s, idle);
    case Enter =>
    case Exit => ExitEffect(s, idle);
  }
}
