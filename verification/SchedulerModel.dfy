/** The ready lists of scheduler.c and thread.c: which thread runs, and how peers take turns. */
module SchedulerModel {
  import opened Rings
  import opened Bitmaps
  import opened IpcLists

  const NOBODY := -1

  datatype Stat = Init | Ready | Suspend

  /** One ready list for every priority below max; smaller priorities are more urgent. */
  datatype Sched = Sched(max: Level, lists: map<Level, seq<int>>, prio: seq<Level>, stat: seq<Stat>, current: int, nest: int)

  ghost predicate Thread(s: Sched, t: int) { 0 <= t < |s.stat| }

  /** A thread is in the list of its current priority, and in no other, exactly while it is ready. */
  ghost predicate Listed(s: Sched) {
    && |s.prio| == |s.stat|
    && (forall p :: p in s.lists <==> Below(p, s.max))
    && (forall p :: p in s.lists ==> Narrow(p))
    && (forall t :: Thread(s, t) ==> s.prio[t] in s.lists)
    && (forall p :: p in s.lists ==> Distinct(s.lists[p]))
    && forall p, t :: p in s.lists ==> (t in s.lists[p] <==> Thread(s, t) && s.stat[t] == Ready && s.prio[t] == p)
  }

  ghost predicate SomeReady(s: Sched) {
    exists t :: Thread(s, t) && s.stat[t] == Ready
  }

  // ---- the parts of the operations ----

  /** rt_schedule_insert_thread. */
  function Inserted(s: Sched, t: int): Sched
    requires 0 <= t < |s.stat| == |s.prio| && s.prio[t] in s.lists
  {
    s.(stat := s.stat[t := Ready], lists := s.lists[s.prio[t] := s.lists[s.prio[t]] + [t]])
  }

  /** rt_schedule_remove_thread; the caller has changed the state, or changes the priority next. */
  function Removed(s: Sched, t: int, stat: Stat): Sched
    requires 0 <= t < |s.stat| == |s.prio| && s.prio[t] in s.lists
  {
    s.(stat := s.stat[t := stat], lists := s.lists[s.prio[t] := Unlisted(s.lists[s.prio[t]], t)])
  }

  lemma InsertedListed(s: Sched, t: int)
    requires Listed(s) && Thread(s, t) && s.stat[t] != Ready
    ensures Listed(Inserted(s, t))
  {
    hide Below;
    var p, n := s.prio[t], Inserted(s, t);
    assert t !in s.lists[p];
    forall q, x | q in n.lists
      ensures x in n.lists[q] <==> Thread(n, x) && n.stat[x] == Ready && n.prio[x] == q
    {
      assert q in s.lists;
      assert x in s.lists[q] <==> Thread(s, x) && s.stat[x] == Ready && s.prio[x] == q;
    }
  }

  lemma RemovedListed(s: Sched, t: int, stat: Stat)
    requires Listed(s) && Thread(s, t) && stat != Ready
    ensures Listed(Removed(s, t, stat))
  {
    hide Unlisted, Below;
    var p, n := s.prio[t], Removed(s, t, stat);
    UnlistedMember(s.lists[p], t, t);
    forall q, x | q in n.lists
      ensures x in n.lists[q] <==> Thread(n, x) && n.stat[x] == Ready && n.prio[x] == q
    {
      assert q in s.lists;
      assert x in s.lists[q] <==> Thread(s, x) && s.stat[x] == Ready && s.prio[x] == q;
      UnlistedMember(s.lists[p], t, x);
    }
  }

  // ---- who runs ----

  /** The most urgent priority with a ready thread. */
  ghost predicate Top(s: Sched, p: Level) {
    p in s.lists && s.lists[p] != [] && forall q :: q in s.lists && Below(q, p) ==> s.lists[q] == []
  }

  lemma {:induction false} TopExists(s: Sched, p: Level)
    requires p in s.lists && s.lists[p] != []
    ensures exists q :: Top(s, q)
    decreases p.w
  {
    if !Top(s, p) {
      var q :| q in s.lists && Below(q, p) && s.lists[q] != [];
      TopExists(s, q);
    }
  }

  lemma TopUnique(s: Sched, p: Level, q: Level)
    requires Listed(s) && Top(s, p) && Top(s, q)
    ensures p == q
  {
    hide Below, Narrow;
    BelowIsOrder(p, q);
  }

  lemma ReadyListed(s: Sched, t: int)
    requires Listed(s) && Thread(s, t) && s.stat[t] == Ready
    ensures s.prio[t] in s.lists && t in s.lists[s.prio[t]]
  {}

  ghost function Best(s: Sched): (p: Level)
    requires Listed(s) && SomeReady(s)
    ensures Top(s, p)
  {
    var t :| Thread(s, t) && s.stat[t] == Ready;
    ReadyListed(s, t);
    TopExists(s, s.prio[t]);
    var p :| Top(s, p);
    p
  }

  /** rt_schedule: the head of the most urgent list, unless the scheduler is locked. */
  ghost function Rescheduled(s: Sched): Sched
    requires Listed(s) && SomeReady(s)
  {
    if s.nest != 0 then s else s.(current := s.lists[Best(s)][0])
  }

  /** Whoever is scheduled is ready, at least as urgent as every ready thread, and first among its peers. */
  lemma RescheduledIsBest(s: Sched)
    requires Listed(s) && SomeReady(s) && s.nest == 0
    ensures var t := Rescheduled(s).current; Thread(s, t) && s.stat[t] == Ready && s.lists[s.prio[t]][0] == t
    ensures forall u :: Thread(s, u) && s.stat[u] == Ready ==> !Below(s.prio[u], s.prio[Rescheduled(s).current])
  {
    hide Below, Best;
    var p := Best(s);
    assert s.lists[p][0] in s.lists[p];
    forall u | Thread(s, u) && s.stat[u] == Ready
      ensures !Below(s.prio[u], p)
    {
      ReadyListed(s, u);
    }
  }

  // ---- the operations ----

  /** Launch and Rotate are rt_thread_startup and rt_thread_yield up to their call of rt_schedule, so that other
      actions can come in between; Resume and Schedule are in the same way the parts of rt_thread_timeout. */
  datatype Action =
    | Startup(thread: int, prio: Level)
    | Launch(thread: int, prio: Level)
    | Stop(thread: int)                          // rt_thread_suspend
    | Resume(thread: int)
    | Timeout(thread: int)
    | Yield
    | Rotate
    | ChangePriority(thread: int, prio: Level)
    | Schedule
    | Enter                                      // rt_enter_critical
    | Exit

  /** The idle thread never stops being ready once it has been started. */
  ghost predicate Enabled(s: Sched, a: Action, idle: int) {
    && Thread(s, idle) && s.stat[idle] == Ready
    && match a
       case Startup(t, p) => Thread(s, t) && s.stat[t] == Init && p in s.lists
       case Launch(t, p) => Thread(s, t) && s.stat[t] == Init && p in s.lists
       case Stop(t) => Thread(s, t) && t != idle
       case Resume(t) => Thread(s, t)
       case Timeout(t) => Thread(s, t) && s.stat[t] == Suspend
       case Yield => Thread(s, s.current)
       case Rotate => Thread(s, s.current)
       case ChangePriority(t, p) => Thread(s, t) && p in s.lists
       case _ => true
  }

  function Moved(s: Sched, t: int, p: Level): Sched
    requires 0 <= t < |s.stat| == |s.prio| && s.prio[t] in s.lists && p in s.lists
  {
    Inserted(Removed(s, t, Suspend).(prio := s.prio[t := p]), t)
  }

  /** The current thread goes behind its peers, if it has any. */
  predicate HasPeers(s: Sched)
    requires 0 <= s.current < |s.stat| == |s.prio| && s.prio[s.current] in s.lists
  {
    s.stat[s.current] == Ready && |s.lists[s.prio[s.current]]| > 1
  }

  function Rotation(s: Sched): Sched
    requires 0 <= s.current < |s.stat| == |s.prio| && s.prio[s.current] in s.lists
  {
    if HasPeers(s) then Moved(s, s.current, s.prio[s.current]) else s
  }

  ghost function Step(s: Sched, a: Action, idle: int): Sched
    requires Listed(s) && Enabled(s, a, idle)
  {
    match a
    case Startup(t, p) =>
      StartupListed(s, t, p);
      KeepsReady(s, t, p, idle);
      var n := Inserted(s.(prio := s.prio[t := p]), t);
      if s.current != NOBODY then Rescheduled(n) else n
    case Launch(t, p) => Inserted(s.(prio := s.prio[t := p]), t)
    case Stop(t) => if s.stat[t] != Ready then s else Removed(s, t, Suspend)
    case Resume(t) => if s.stat[t] != Suspend then s else Inserted(s, t)
    case Timeout(t) =>
      InsertedListed(s, t);
      assert Thread(Inserted(s, t), idle) && Inserted(s, t).stat[idle] == Ready;
      Rescheduled(Inserted(s, t))
    case Yield =>
      if s.stat[s.current] == Ready && |s.lists[s.prio[s.current]]| > 1 then
        MovedListed(s, s.current, s.prio[s.current]);
        assert Thread(s, idle) && Moved(s, s.current, s.prio[s.current]).stat[idle] == Ready;
        assert Thread(Moved(s, s.current, s.prio[s.current]), idle);
        Rescheduled(Moved(s, s.current, s.prio[s.current]))
      else s
    case Rotate => Rotation(s)
    case ChangePriority(t, p) => if s.stat[t] == Ready then Moved(s, t, p) else s.(prio := s.prio[t := p])
    case Schedule => Rescheduled(s)
    case Enter => s.(nest := s.nest + 1)
    case Exit =>
      var n := s.(nest := if s.nest - 1 <= 0 then 0 else s.nest - 1);
      assert Thread(n, idle) && Listed(n);
      if n.nest == 0 then Rescheduled(n) else n
  }

  lemma PrioListed(s: Sched, t: int, p: Level)
    requires Listed(s) && Thread(s, t) && s.stat[t] != Ready && p in s.lists
    ensures Listed(s.(prio := s.prio[t := p]))
  {
    hide Below;
    var n := s.(prio := s.prio[t := p]);
    forall q, x | q in n.lists
      ensures x in n.lists[q] <==> Thread(n, x) && n.stat[x] == Ready && n.prio[x] == q
    {
      assert x in s.lists[q] <==> Thread(s, x) && s.stat[x] == Ready && s.prio[x] == q;
    }
  }

  lemma StartupListed(s: Sched, t: int, p: Level)
    requires Listed(s) && Thread(s, t) && s.stat[t] == Init && p in s.lists
    ensures Listed(Inserted(s.(prio := s.prio[t := p]), t))
  {
    PrioListed(s, t, p);
    InsertedListed(s.(prio := s.prio[t := p]), t);
  }

  lemma KeepsReady(s: Sched, t: int, p: Level, idle: int)
    requires Listed(s) && Thread(s, t) && p in s.lists && Thread(s, idle) && s.stat[idle] == Ready
    ensures SomeReady(Inserted(s.(prio := s.prio[t := p]), t))
  {
    assert Thread(Inserted(s.(prio := s.prio[t := p]), t), idle);
  }

  lemma MovedListed(s: Sched, t: int, p: Level)
    requires Listed(s) && Thread(s, t) && s.stat[t] == Ready && p in s.lists
    ensures Listed(Moved(s, t, p))
  {
    RemovedListed(s, t, Suspend);
    PrioListed(Removed(s, t, Suspend), t, p);
    InsertedListed(Removed(s, t, Suspend).(prio := s.prio[t := p]), t);
  }

  lemma Shape(s: Sched)
    requires Listed(s)
    ensures |s.prio| == |s.stat| && forall t :: Thread(s, t) ==> s.prio[t] in s.lists
  {}

  lemma RescheduledKeeps(s: Sched)
    requires Listed(s) && SomeReady(s)
    ensures Listed(Rescheduled(s)) && Rescheduled(s) == s.(current := Rescheduled(s).current)
  {}

  lemma OtherFields(s: Sched, current: int, nest: int)
    requires Listed(s)
    ensures Listed(s.(current := current, nest := nest))
  {}

  lemma StepListed(s: Sched, a: Action, idle: int)
    requires Listed(s) && Enabled(s, a, idle)
    ensures Listed(Step(s, a, idle))
    ensures |Step(s, a, idle).stat| == |s.stat| && Step(s, a, idle).stat[idle] == Ready
  {
    hide Below, Best, Listed, Rescheduled;
    Shape(s);
    match a
    case Startup(t, p) =>
      StartupListed(s, t, p);
      KeepsReady(s, t, p, idle);
      RescheduledKeeps(Inserted(s.(prio := s.prio[t := p]), t));
    case Launch(t, p) => StartupListed(s, t, p);
    case Stop(t) => if s.stat[t] == Ready { RemovedListed(s, t, Suspend); }
    case Resume(t) => if s.stat[t] == Suspend { InsertedListed(s, t); }
    case Timeout(t) =>
      InsertedListed(s, t);
      assert Thread(Inserted(s, t), idle);
      RescheduledKeeps(Inserted(s, t));
    case Yield =>
      if s.stat[s.current] == Ready && |s.lists[s.prio[s.current]]| > 1 {
        MovedListed(s, s.current, s.prio[s.current]);
        assert Thread(Moved(s, s.current, s.prio[s.current]), idle);
        RescheduledKeeps(Moved(s, s.current, s.prio[s.current]));
      }
    case Rotate => if HasPeers(s) { MovedListed(s, s.current, s.prio[s.current]); }
    case ChangePriority(t, p) =>
      if s.stat[t] == Ready { MovedListed(s, t, p); } else { PrioListed(s, t, p); }
    case Schedule => RescheduledKeeps(s);
    case Enter => OtherFields(s, s.current, s.nest + 1);
    case Exit =>
      var n := s.(nest := if s.nest - 1 <= 0 then 0 else s.nest - 1);
      OtherFields(s, s.current, n.nest);
      assert Thread(n, idle);
      RescheduledKeeps(n);
  }

  // ---- runs ----

  ghost predicate Possible(s: Sched, acts: seq<Action>, idle: int)
    requires Listed(s)
    decreases |acts|
  {
    acts == [] || (Enabled(s, acts[0], idle) && (StepListed(s, acts[0], idle); Possible(Step(s, acts[0], idle), acts[1..], idle)))
  }

  ghost function Run(s: Sched, acts: seq<Action>, idle: int): Sched
    requires Listed(s) && Possible(s, acts, idle)
    decreases |acts|
  {
    if acts == [] then s
    else
      StepListed(s, acts[0], idle);
      Run(Step(s, acts[0], idle), acts[1..], idle)
  }

  /** Over any run a thread is in the ready list of its current priority exactly while it is ready. */
  lemma {:induction false} RunListed(s: Sched, acts: seq<Action>, idle: int)
    requires Listed(s) && Possible(s, acts, idle)
    ensures Listed(Run(s, acts, idle))
    decreases |acts|
  {
    hide Listed, Step;
    if acts != [] {
      StepListed(s, acts[0], idle);
      RunListed(Step(s, acts[0], idle), acts[1..], idle);
    }
  }

  // ---- peers take turns ----

  function Rotated(s: seq<int>): seq<int>
    requires s != []
  {
    s[1..] + [s[0]]
  }

  /** The current thread is the first of the most urgent list, as after every rt_schedule. */
  ghost predicate Running(s: Sched, p: Level) {
    Listed(s) && s.nest == 0 && Top(s, p) && s.current == s.lists[p][0]
  }

  lemma RunningThread(s: Sched, p: Level)
    requires Running(s, p)
    ensures Thread(s, s.current) && s.stat[s.current] == Ready && s.prio[s.current] == p
  {
    assert s.current in s.lists[p];
  }

  /** A yield sends the current thread behind its peers, and the next one runs. */
  lemma YieldRotates(s: Sched, p: Level, idle: int)
    requires Running(s, p) && Enabled(s, Yield, idle)
    ensures Step(s, Yield, idle) == s.(lists := s.lists[p := Rotated(s.lists[p])], current := Rotated(s.lists[p])[0])
    ensures Running(Step(s, Yield, idle), p)
  {
    hide Below;
    RunningThread(s, p);
    var l, n := s.lists[p], Step(s, Yield, idle);
    if |l| > 1 {
      var m := Moved(s, s.current, p);
      MovedListed(s, s.current, p);
      IndexUnique(l, 0);
      assert Unlisted(l, s.current) == l[1..];
      assert s.lists[p := l[1..]][p := l[1..] + [s.current]] == s.lists[p := Rotated(l)];
      assert m == s.(lists := s.lists[p := Rotated(l)]) by {
        assert s.stat[s.current := Suspend][s.current := Ready] == s.stat;
        assert s.prio[s.current := p] == s.prio;
      }
      assert Top(m, p);
      assert Thread(m, idle);
      TopUnique(m, p, Best(m));
    } else {
      assert l == [s.current] && Rotated(l) == l;
      assert s.lists[p := l] == s.lists;
    }
    StepListed(s, Yield, idle);
    assert Top(n, p);
  }

  /** k yields in a row, each by whoever runs then. */
  ghost function Yields(s: Sched, p: Level, idle: int, k: nat): (r: Sched)
    requires Running(s, p) && Thread(s, idle) && s.stat[idle] == Ready
    ensures Running(r, p) && |r.stat| == |s.stat| && r.stat[idle] == Ready
  {
    if k == 0 then s
    else
      var m := Yields(s, p, idle, k - 1);
      RunningThread(m, p);
      YieldRotates(m, p, idle);
      StepListed(m, Yield, idle);
      Step(m, Yield, idle)
  }

  /** In one round every peer runs once, in list order, and then the list is as it was. */
  lemma {:induction false} RoundRobin(s: Sched, p: Level, idle: int, k: nat)
    requires Running(s, p) && Thread(s, idle) && s.stat[idle] == Ready && k <= |s.lists[p]|
    ensures var l, r := s.lists[p], Yields(s, p, idle, k);
            r == s.(lists := s.lists[p := l[k..] + l[..k]], current := if k < |l| then l[k] else l[0])
  {
    hide Below, Step, Running;
    RunningIs(s, p);
    var l := s.lists[p];
    if k == 0 {
      assert l[0..] + l[..0] == l && s.lists[p := l] == s.lists;
    } else {
      RoundRobin(s, p, idle, k - 1);
      var m := Yields(s, p, idle, k - 1);
      RunningThread(m, p);
      YieldRotates(m, p, idle);
      RunningIs(m, p);
      RotateOnce(l, k);
      assert s.lists[p := l[k - 1..] + l[..k - 1]][p := l[k..] + l[..k]] == s.lists[p := l[k..] + l[..k]];
    }
  }

  lemma RunningIs(s: Sched, p: Level)
    requires Running(s, p)
    ensures p in s.lists && s.lists[p] != [] && s.current == s.lists[p][0]
  {}

  lemma RotateOnce(l: seq<int>, k: nat)
    requires 0 < k <= |l|
    ensures Rotated(l[k - 1..] + l[..k - 1]) == l[k..] + l[..k]
    ensures (l[k..] + l[..k])[0] == if k < |l| then l[k] else l[0]
  {}

  // ---- nobody is passed over for ever ----

  ghost predicate CurrentFirst(s: Sched) {
    Listed(s) && (Thread(s, s.current) && s.stat[s.current] == Ready ==> s.lists[s.prio[s.current]][0] == s.current)
  }

  ghost predicate Waiting(s: Sched, t: int) {
    Listed(s) && Thread(s, t) && s.stat[t] == Ready
  }

  /** How many peers are in front of a ready thread. */
  ghost function Ahead(s: Sched, t: int): nat
    requires Waiting(s, t)
  {
    ReadyListed(s, t);
    IndexOf(s.lists[s.prio[t]], t)
  }

  lemma {:induction false} IndexInFront(s: seq<int>, x: int, y: int)
    requires x in s
    ensures IndexOf(s + [y], x) == IndexOf(s, x)
  {
    if s[0] != x {
      assert (s + [y])[1..] == s[1..] + [y];
      IndexInFront(s[1..], x, y);
    }
  }

  lemma IndexWithout(s: seq<int>, x: int, y: int)
    requires Distinct(s) && x in s && x != y
    ensures x in Unlisted(s, y)
    ensures IndexOf(Unlisted(s, y), x) == IndexOf(s, x) - if y in s && IndexOf(s, y) < IndexOf(s, x) then 1 else 0
  {
    UnlistedMember(s, y, x);
    if y in s {
      var i, j := IndexOf(s, x), IndexOf(s, y);
      var k := if j < i then i - 1 else i;
      assert Unlisted(s, y)[k] == x;
      IndexUnique(Unlisted(s, y), k);
    }
  }

  lemma InsertedAhead(s: Sched, u: int, t: int)
    requires Waiting(s, t) && Thread(s, u) && s.stat[u] != Ready
    ensures Waiting(Inserted(s, u), t) && Ahead(Inserted(s, u), t) == Ahead(s, t)
  {
    hide Below;
    InsertedListed(s, u);
    ReadyListed(s, t);
    IndexInFront(s.lists[s.prio[t]], t, u);
  }

  lemma RemovedAhead(s: Sched, u: int, t: int)
    requires Waiting(s, t) && Waiting(s, u) && u != t
    ensures Waiting(Removed(s, u, Suspend), t)
    ensures Ahead(Removed(s, u, Suspend), t) == Ahead(s, t) - if s.prio[u] == s.prio[t] && Ahead(s, u) < Ahead(s, t) then 1 else 0
  {
    hide Below, Unlisted;
    RemovedListed(s, u, Suspend);
    ReadyListed(s, t);
    ReadyListed(s, u);
    IndexWithout(s.lists[s.prio[t]], t, u);
  }

  lemma PriorityAhead(s: Sched, u: int, p: Level, t: int)
    requires Waiting(s, t) && Thread(s, u) && s.stat[u] != Ready && p in s.lists
    ensures Waiting(s.(prio := s.prio[u := p]), t) && Ahead(s.(prio := s.prio[u := p]), t) == Ahead(s, t)
  {
    hide Below;
    PrioListed(s, u, p);
  }

  lemma MovedAhead(s: Sched, u: int, p: Level, t: int)
    requires Waiting(s, t) && Waiting(s, u) && u != t && p in s.lists
    ensures Waiting(Moved(s, u, p), t)
    ensures Ahead(Moved(s, u, p), t) == Ahead(s, t) - if s.prio[u] == s.prio[t] && Ahead(s, u) < Ahead(s, t) then 1 else 0
  {
    hide Below, Unlisted, Ahead, Waiting;
    RemovedAhead(s, u, t);
    WaitingIs(s, u);
    WaitingIs(s, t);
    var r := Removed(s, u, Suspend);
    PriorityAhead(r, u, p, t);
    InsertedAhead(r.(prio := r.prio[u := p]), u, t);
  }

  lemma WaitingIs(s: Sched, t: int)
    requires Waiting(s, t)
    ensures Listed(s) && Thread(s, t) && s.stat[t] == Ready && |s.prio| == |s.stat| && s.prio[t] in s.lists
  {}

  lemma CurrentAhead(s: Sched, current: int, nest: int, t: int)
    requires Waiting(s, t)
    ensures Waiting(s.(current := current, nest := nest), t) && Ahead(s.(current := current, nest := nest), t) == Ahead(s, t)
  {}

  lemma RescheduledAhead(s: Sched, t: int)
    requires Waiting(s, t)
    ensures SomeReady(s) && Waiting(Rescheduled(s), t) && Ahead(Rescheduled(s), t) == Ahead(s, t)
  {
    hide Best;
    assert Thread(s, t);
    RescheduledKeeps(s);
    CurrentAhead(s, Rescheduled(s).current, s.nest, t);
  }

  /** The action neither stops t nor changes its priority, and t does not run, so that it cannot yield. */
  predicate LeavesAlone(s: Sched, a: Action, t: int) {
    s.current != t && !(a == Stop(t)) && !(a.ChangePriority? && a.thread == t)
  }

  /** The running thread goes behind its peers, t among them. */
  ghost predicate PeerMoves(s: Sched, a: Action, t: int)
    requires Waiting(s, t)
  {
    (a == Yield || a == Rotate) && Waiting(s, s.current) && s.prio[s.current] == s.prio[t]
  }

  /** It stood in front of t. */
  ghost predicate Passes(s: Sched, a: Action, t: int)
    requires Waiting(s, t)
  {
    PeerMoves(s, a, t) && Ahead(s, s.current) < Ahead(s, t)
  }

  lemma PeersAreTwo(s: Sched, u: int, t: int)
    requires Waiting(s, t) && Waiting(s, u) && u != t && s.prio[u] == s.prio[t]
    ensures s.prio[t] in s.lists && |s.lists[s.prio[t]]| > 1
  {
    hide Below;
    ReadyListed(s, t);
    ReadyListed(s, u);
  }

  lemma RotationAhead(s: Sched, t: int, a: Action)
    requires Waiting(s, t) && Thread(s, s.current) && s.current != t && (a == Yield || a == Rotate)
    ensures |s.prio| == |s.stat| && s.prio[s.current] in s.lists
    ensures Waiting(Rotation(s), t)
    ensures Ahead(Rotation(s), t) == Ahead(s, t) - if Passes(s, a, t) then 1 else 0
  {
    hide Below, Ahead, Moved;
    WaitingIs(s, t);
    if s.stat[s.current] == Ready {
      if s.prio[s.current] == s.prio[t] { PeersAreTwo(s, s.current, t); }
      if HasPeers(s) { MovedAhead(s, s.current, s.prio[s.current], t); }
    }
  }

  lemma StartupAhead(s: Sched, a: Action, idle: int, t: int)
    requires Waiting(s, t) && Enabled(s, a, idle) && (a.Startup? || a.Launch?)
    ensures Waiting(Step(s, a, idle), t) && Ahead(Step(s, a, idle), t) == Ahead(s, t)
  {
    hide Below, Ahead, Rescheduled, Inserted;
    WaitingIs(s, t);
    var u, p := a.thread, a.prio;
    PriorityAhead(s, u, p, t);
    InsertedAhead(s.(prio := s.prio[u := p]), u, t);
    RescheduledAhead(Inserted(s.(prio := s.prio[u := p]), u), t);
  }

  lemma YieldAhead(s: Sched, idle: int, t: int)
    requires Waiting(s, t) && Enabled(s, Yield, idle) && s.current != t
    ensures Waiting(Step(s, Yield, idle), t)
    ensures Ahead(Step(s, Yield, idle), t) == Ahead(s, t) - if Passes(s, Yield, t) then 1 else 0
  {
    hide Below, Unlisted, Ahead, Rescheduled, Moved, Passes;
    WaitingIs(s, t);
    RotationAhead(s, t, Yield);
    RescheduledAhead(Rotation(s), t);
  }

  /** In every state, locked or not, whoever runs: a step that leaves t alone brings nobody in front of it, and a
      yield takes one peer away exactly if the thread that yields stands in front of t. */
  lemma StepAhead(s: Sched, a: Action, idle: int, t: int)
    requires Waiting(s, t) && Enabled(s, a, idle) && LeavesAlone(s, a, t)
    ensures Waiting(Step(s, a, idle), t) && Ahead(Step(s, a, idle), t) <= Ahead(s, t)
    ensures a == Yield || a == Rotate ==> Ahead(Step(s, a, idle), t) == Ahead(s, t) - if Passes(s, a, t) then 1 else 0
  {
    hide Below, Unlisted, Ahead, Rescheduled, Inserted, Removed, Moved, Passes, Rotation;
    WaitingIs(s, t);
    match a
    case Startup(u, p) => StartupAhead(s, a, idle, t);
    case Launch(u, p) => StartupAhead(s, a, idle, t);
    case Stop(u) => if s.stat[u] == Ready { RemovedAhead(s, u, t); }
    case Resume(u) => if s.stat[u] == Suspend { InsertedAhead(s, u, t); }
    case Timeout(u) =>
      InsertedAhead(s, u, t);
      RescheduledAhead(Inserted(s, u), t);
    case Yield => YieldAhead(s, idle, t);
    case Rotate => RotationAhead(s, t, a);
    case ChangePriority(u, p) =>
      if s.stat[u] == Ready { MovedAhead(s, u, p, t); } else { PriorityAhead(s, u, p, t); }
    case Schedule => RescheduledAhead(s, t);
    case Enter => CurrentAhead(s, s.current, s.nest + 1, t);
    case Exit =>
      var nest := if s.nest - 1 <= 0 then 0 else s.nest - 1;
      CurrentAhead(s, s.current, nest, t);
      RescheduledAhead(s.(nest := nest), t);
  }

  /** A thread that yields to a peer gives up the processor exactly if the scheduler is not locked. */
  lemma YieldHandsOver(s: Sched, idle: int, t: int)
    requires Waiting(s, t) && Enabled(s, Yield, idle) && s.current != t && PeerMoves(s, Yield, t)
    ensures Step(s, Yield, idle).current != s.current <==> s.nest == 0
  {
    hide Below, Unlisted, Best;
    PeersAreTwo(s, s.current, t);
    var p := s.prio[s.current];
    var m := Moved(s, s.current, p);
    MovedListed(s, s.current, p);
    assert Thread(m, idle);
    UnlistedMember(s.lists[p], s.current, t);
    ReadyListed(s, t);
    if s.nest == 0 {
      var q := Best(m);
      assert m.lists[p] == Unlisted(s.lists[p], s.current) + [s.current];
      HeadIsOther(m, q, p, s.current, Unlisted(s.lists[p], s.current));
      assert m.nest == 0 && Rescheduled(m).current == m.lists[q][0];
    } else {
      assert m.nest != 0 && m.current == s.current;
    }
  }

  /** In a list whose last one is u and that is not only u, another one is first; and u is in no other list. */
  lemma HeadIsOther(s: Sched, q: Level, p: Level, u: int, l: seq<int>)
    requires Listed(s) && q in s.lists && p in s.lists && s.lists[q] != [] && s.lists[p] == l + [u] && l != []
    ensures s.lists[q][0] != u
  {
    hide Below;
    var r, first := s.lists[p], s.lists[q][0];
    assert r[|l|] == u && u in r;
    assert first in s.lists[q];
    assert Thread(s, u) && Thread(s, first);
    assert s.prio[u] == p && s.prio[first] == q;
    if q == p { assert Distinct(r) && r[0] != r[|l|]; }
  }

  /** Both at once: a yield to peers takes one away from in front of t and hands over the processor exactly if the
      scheduler is not locked and the thread that yields stands in front of t. */
  lemma YieldServes(s: Sched, idle: int, t: int)
    requires Waiting(s, t) && Enabled(s, Yield, idle) && s.current != t && PeerMoves(s, Yield, t)
    ensures Waiting(Step(s, Yield, idle), t)
    ensures Ahead(Step(s, Yield, idle), t) < Ahead(s, t) && Step(s, Yield, idle).current != s.current <==>
              s.nest == 0 && Ahead(s, s.current) < Ahead(s, t)
  {
    hide Ahead, Step, Enabled;
    StepAhead(s, Yield, idle, t);
    YieldHandsOver(s, idle, t);
  }

  // ---- when the running thread loses its place ----

  /** The actions after which the running thread, if it was the first of its list, is no longer. */
  predicate Displaces(s: Sched, a: Action)
    requires |s.stat| == |s.prio|
  {
    match a
    case Startup(u, p) => u == s.current && s.nest != 0 && p in s.lists && s.lists[p] != []
    case Launch(u, p) => u == s.current && p in s.lists && s.lists[p] != []
    case Resume(u) => u == s.current && Occupied(s, u, Suspend)
    case Timeout(u) => u == s.current && s.nest != 0 && Occupied(s, u, Suspend)
    case Yield => s.nest != 0 && 0 <= s.current < |s.stat| && s.prio[s.current] in s.lists && HasPeers(s)
    case Rotate => 0 <= s.current < |s.stat| && s.prio[s.current] in s.lists && HasPeers(s)
    case ChangePriority(u, p) =>
      u == s.current && 0 <= u < |s.stat| && s.stat[u] == Ready && p in s.lists && (if p == s.prio[u] then |s.lists[p]| > 1 else s.lists[p] != [])
    case _ => false
  }

  /** The list that u would join is not empty. */
  predicate Occupied(s: Sched, u: int, stat: Stat)
    requires |s.stat| == |s.prio|
  {
    0 <= u < |s.stat| && s.stat[u] == stat && s.prio[u] in s.lists && s.lists[s.prio[u]] != []
  }

  lemma InsertedFirst(s: Sched, u: int)
    requires CurrentFirst(s) && Thread(s, u) && s.stat[u] != Ready
    ensures |s.prio| == |s.stat| && s.prio[u] in s.lists
    ensures CurrentFirst(Inserted(s, u)) <==> u != s.current || s.lists[s.prio[u]] == []
  {
    hide Below;
    InsertedListed(s, u);
    if Thread(s, s.current) && s.stat[s.current] == Ready { ReadyListed(s, s.current); }
    assert u !in s.lists[s.prio[u]];
  }

  lemma RemovedFirst(s: Sched, u: int)
    requires CurrentFirst(s) && Waiting(s, u)
    ensures CurrentFirst(Removed(s, u, Suspend))
  {
    hide Below, Unlisted;
    RemovedListed(s, u, Suspend);
    ReadyListed(s, u);
    if Thread(s, s.current) && s.stat[s.current] == Ready && s.current != u {
      ReadyListed(s, s.current);
      var l := s.lists[s.prio[s.current]];
      IndexUnique(l, 0);
      IndexWithout(l, s.current, u);
    }
  }

  lemma PriorityFirst(s: Sched, u: int, p: Level)
    requires CurrentFirst(s) && Thread(s, u) && s.stat[u] != Ready && p in s.lists
    ensures CurrentFirst(s.(prio := s.prio[u := p]))
  {
    hide Below;
    PrioListed(s, u, p);
  }

  lemma MovedFirst(s: Sched, u: int, p: Level)
    requires CurrentFirst(s) && Waiting(s, u) && p in s.lists
    ensures CurrentFirst(Moved(s, u, p)) <==> u != s.current || (if p == s.prio[u] then |s.lists[p]| <= 1 else s.lists[p] == [])
  {
    hide Below, Unlisted, CurrentFirst;
    WaitingIs(s, u);
    RemovedFirst(s, u);
    RemovedListed(s, u, Suspend);
    var r := Removed(s, u, Suspend);
    PriorityFirst(r, u, p);
    InsertedFirst(r.(prio := r.prio[u := p]), u);
    ReadyListed(s, u);
    if p == s.prio[u] { OneLeft(s.lists[p], u); }
  }

  lemma OneLeft(l: seq<int>, u: int)
    requires u in l
    ensures Unlisted(l, u) == [] <==> |l| <= 1
  {}

  lemma RescheduledFirst(s: Sched)
    requires Listed(s) && SomeReady(s)
    ensures s.nest == 0 ==> CurrentFirst(Rescheduled(s))
    ensures s.nest != 0 ==> Rescheduled(s) == s
  {
    hide Below, Best;
    if s.nest == 0 { RescheduledIsBest(s); }
  }

  lemma FirstListed(s: Sched)
    requires CurrentFirst(s)
    ensures Listed(s) && |s.stat| == |s.prio| && forall t :: Thread(s, t) ==> s.prio[t] in s.lists
  {}

  lemma FieldsFirst(s: Sched, nest: int)
    requires CurrentFirst(s)
    ensures CurrentFirst(s.(nest := nest))
  {}

  lemma StartupFirst(s: Sched, a: Action, idle: int)
    requires CurrentFirst(s) && Enabled(s, a, idle) && (a.Startup? || a.Launch?)
    ensures Listed(s) && |s.stat| == |s.prio| && (CurrentFirst(Step(s, a, idle)) <==> !Displaces(s, a))
  {
    hide Below, CurrentFirst, Rescheduled, Inserted;
    FirstListed(s);
    var u, p := a.thread, a.prio;
    PriorityFirst(s, u, p);
    InsertedFirst(s.(prio := s.prio[u := p]), u);
    StartupListed(s, u, p);
    KeepsReady(s, u, p, idle);
    InsertedFields(s.(prio := s.prio[u := p]), u);
    RescheduledFirst(Inserted(s.(prio := s.prio[u := p]), u));
  }

  lemma InsertedFields(s: Sched, u: int)
    requires 0 <= u < |s.stat| == |s.prio| && s.prio[u] in s.lists
    ensures Inserted(s, u).nest == s.nest && Inserted(s, u).current == s.current
  {}

  lemma TimeoutFirst(s: Sched, u: int, idle: int)
    requires CurrentFirst(s) && Enabled(s, Timeout(u), idle)
    ensures Listed(s) && |s.stat| == |s.prio| && (CurrentFirst(Step(s, Timeout(u), idle)) <==> !Displaces(s, Timeout(u)))
  {
    hide Below, CurrentFirst, Rescheduled;
    FirstListed(s);
    InsertedFirst(s, u);
    InsertedListed(s, u);
    assert Thread(Inserted(s, u), idle);
    RescheduledFirst(Inserted(s, u));
  }

  lemma YieldFirst(s: Sched, idle: int)
    requires CurrentFirst(s) && Enabled(s, Yield, idle)
    ensures Listed(s) && |s.stat| == |s.prio| && (CurrentFirst(Step(s, Yield, idle)) <==> !Displaces(s, Yield))
  {
    hide Below, CurrentFirst, Rescheduled;
    FirstListed(s);
    if HasPeers(s) {
      MovedFirst(s, s.current, s.prio[s.current]);
      MovedListed(s, s.current, s.prio[s.current]);
      assert Thread(Moved(s, s.current, s.prio[s.current]), idle);
      RescheduledFirst(Moved(s, s.current, s.prio[s.current]));
    }
  }

  /** As long as nothing displaces it, the running thread, while it is ready, is the first of its list; and exactly
      the listed actions displace it. */
  lemma StepFirst(s: Sched, a: Action, idle: int)
    requires CurrentFirst(s) && Enabled(s, a, idle)
    ensures Listed(s) && |s.stat| == |s.prio| && (CurrentFirst(Step(s, a, idle)) <==> !Displaces(s, a))
  {
    hide Below, CurrentFirst, Rescheduled, Inserted, Removed, Moved;
    FirstListed(s);
    match a
    case Startup(u, p) => StartupFirst(s, a, idle);
    case Launch(u, p) => StartupFirst(s, a, idle);
    case Stop(u) => if s.stat[u] == Ready { RemovedFirst(s, u); }
    case Resume(u) => if s.stat[u] == Suspend { InsertedFirst(s, u); }
    case Timeout(u) => TimeoutFirst(s, u, idle);
    case Yield => YieldFirst(s, idle);
    case Rotate => if HasPeers(s) { MovedFirst(s, s.current, s.prio[s.current]); }
    case ChangePriority(u, p) => if s.stat[u] == Ready { MovedFirst(s, u, p); } else { PriorityFirst(s, u, p); }
    case Schedule => RescheduledFirst(s);
    case Enter => FieldsFirst(s, s.nest + 1);
    case Exit =>
      var n := s.(nest := if s.nest - 1 <= 0 then 0 else s.nest - 1);
      FieldsFirst(s, n.nest);
      FirstListed(n);
      assert Thread(n, idle);
      RescheduledFirst(n);
  }

  lemma FirstIsZero(s: Sched)
    requires CurrentFirst(s) && Waiting(s, s.current)
    ensures Ahead(s, s.current) == 0
  {
    hide Below;
    ReadyListed(s, s.current);
    IndexUnique(s.lists[s.prio[s.current]], 0);
  }

  lemma OthersBehind(s: Sched, t: int)
    requires Waiting(s, t) && Waiting(s, s.current) && s.current != t && s.prio[s.current] == s.prio[t] && Ahead(s, s.current) == 0
    ensures Ahead(s, t) > 0
  {
    hide Below;
    ReadyListed(s, t);
    ReadyListed(s, s.current);
  }

  // ---- over whole runs ----

  /** Any actions, except that t is not stopped, its priority is not changed, and it does not get to run. */
  ghost predicate WaitsThrough(s: Sched, acts: seq<Action>, idle: int, t: int)
    requires Listed(s)
    decreases |acts|
  {
    acts == [] ||
    (Enabled(s, acts[0], idle) && LeavesAlone(s, acts[0], t) &&
     (StepListed(s, acts[0], idle); WaitsThrough(Step(s, acts[0], idle), acts[1..], idle, t)))
  }

  /** Yields and rotations of peers that stood in front of t. */
  ghost function PassesSeen(s: Sched, acts: seq<Action>, idle: int, t: int): nat
    requires Waiting(s, t) && WaitsThrough(s, acts, idle, t)
    decreases |acts|
  {
    if acts == [] then 0
    else
      StepAhead(s, acts[0], idle, t);
      (if Passes(s, acts[0], t) then 1 else 0) + PassesSeen(Step(s, acts[0], idle), acts[1..], idle, t)
  }

  /** Yields of peers that give up the processor. */
  ghost function YieldsSeen(s: Sched, acts: seq<Action>, idle: int, t: int): nat
    requires Waiting(s, t) && WaitsThrough(s, acts, idle, t)
    decreases |acts|
  {
    if acts == [] then 0
    else
      StepAhead(s, acts[0], idle, t);
      (if acts[0] == Yield && s.nest == 0 && PeerMoves(s, Yield, t) then 1 else 0) + YieldsSeen(Step(s, acts[0], idle), acts[1..], idle, t)
  }

  /** How often the running thread loses its place at the front. */
  ghost function Displacements(s: Sched, acts: seq<Action>, idle: int, t: int): nat
    requires Waiting(s, t) && WaitsThrough(s, acts, idle, t)
    decreases |acts|
  {
    if acts == [] then 0
    else
      StepAhead(s, acts[0], idle, t);
      Shape(s);
      (if CurrentFirst(s) && Displaces(s, acts[0]) then 1 else 0) + Displacements(Step(s, acts[0], idle), acts[1..], idle, t)
  }

  /** Over every run, peers yield from in front of a waiting thread at most as often as there are peers in front of it. */
  lemma {:induction false} BoundedPasses(s: Sched, acts: seq<Action>, idle: int, t: int)
    requires Waiting(s, t) && WaitsThrough(s, acts, idle, t)
    ensures PassesSeen(s, acts, idle, t) <= Ahead(s, t)
    decreases |acts|
  {
    hide Below, Step, Ahead, Waiting, Passes, Enabled;
    WaitingIs(s, t);
    if acts != [] {
      StepAhead(s, acts[0], idle, t);
      PassCounts(s, acts[0], idle, t);
      BoundedPasses(Step(s, acts[0], idle), acts[1..], idle, t);
    }
  }

  lemma PassCounts(s: Sched, a: Action, idle: int, t: int)
    requires Waiting(s, t) && Enabled(s, a, idle) && LeavesAlone(s, a, t)
    ensures Waiting(Step(s, a, idle), t) && Ahead(Step(s, a, idle), t) <= Ahead(s, t) - if Passes(s, a, t) then 1 else 0
  {
    hide Step, Ahead, Enabled;
    StepAhead(s, a, idle, t);
  }

  /** One yield may be lost for a running thread that is not the first of its list. */
  ghost function Debt(s: Sched): nat { if CurrentFirst(s) then 0 else 1 }

  lemma DebtStep(s: Sched, a: Action, idle: int, t: int)
    requires Waiting(s, t) && Enabled(s, a, idle) && LeavesAlone(s, a, t)
    ensures |s.stat| == |s.prio| && Waiting(Step(s, a, idle), t)
    ensures Ahead(Step(s, a, idle), t) + Debt(Step(s, a, idle)) + (if a == Yield && s.nest == 0 && PeerMoves(s, Yield, t) then 1 else 0)
         <= Ahead(s, t) + Debt(s) + (if CurrentFirst(s) && Displaces(s, a) then 1 else 0)
  {
    hide Below, Ahead, Step, CurrentFirst, Enabled, Displaces;
    WaitingIs(s, t);
    StepAhead(s, a, idle, t);
    if CurrentFirst(s) {
      StepFirst(s, a, idle);
      if (a == Yield || a == Rotate) && PeerMoves(s, a, t) {
        FirstIsZero(s);
        OthersBehind(s, t);
      }
    } else if a == Yield && s.nest == 0 && PeerMoves(s, Yield, t) {
      YieldRestores(s, idle, t);
    }
    NotDisplaced(s, a);
  }

  /** A yield of an unlocked scheduler leaves a running thread that is the first of its list. */
  lemma YieldRestores(s: Sched, idle: int, t: int)
    requires Waiting(s, t) && Enabled(s, Yield, idle) && s.current != t && s.nest == 0 && PeerMoves(s, Yield, t)
    ensures CurrentFirst(Step(s, Yield, idle))
  {
    hide Below, CurrentFirst, Rescheduled;
    PeersAreTwo(s, s.current, t);
    MovedListed(s, s.current, s.prio[s.current]);
    assert Thread(Moved(s, s.current, s.prio[s.current]), idle);
    RescheduledFirst(Moved(s, s.current, s.prio[s.current]));
  }

  lemma NotDisplaced(s: Sched, a: Action)
    requires |s.stat| == |s.prio|
    ensures a == Yield && s.nest == 0 ==> !Displaces(s, a)
  {}

  /** However threads come and go, and whatever is locked: the peers of a ready thread give up the processor at most as
      often as there are peers in front of it, and once more for every time the running thread lost its place. */
  lemma {:induction false} BoundedWaiting(s: Sched, acts: seq<Action>, idle: int, t: int)
    requires Waiting(s, t) && WaitsThrough(s, acts, idle, t)
    ensures YieldsSeen(s, acts, idle, t) <= Ahead(s, t) + Debt(s) + Displacements(s, acts, idle, t)
    decreases |acts|
  {
    hide Below, Step, Ahead, CurrentFirst, Waiting, PeerMoves, Enabled, Debt, Displaces;
    WaitingIs(s, t);
    if acts != [] {
      DebtStep(s, acts[0], idle, t);
      BoundedWaiting(Step(s, acts[0], idle), acts[1..], idle, t);
    }
  }
}
