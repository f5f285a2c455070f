/** A run in which the running thread loses its place in its ready list. */
module SchedulerCases {
  import opened Rings
  import opened Bitmaps
  import opened SchedulerModel

  /** Four threads and four priorities; thread 3 is the idle thread. */
  function Four(l1: seq<int>, l2: seq<int>, l3: seq<int>, prio: seq<Level>, stat: seq<Stat>, current: int): Sched {
    Sched(Level(4), map[Level(0) := [], Level(1) := l1, Level(2) := l2, Level(3) := l3], prio, stat, current, 0)
  }

  const P1 := Level(1)
  const P2 := Level(2)
  const P3 := Level(3)

  /** The idle thread has been started, nobody runs yet. */
  const Booted := Four([], [], [3], [P3, P3, P3, P3], [Init, Init, Init, Ready], NOBODY)
  const One := Four([0], [], [3], [P1, P3, P3, P3], [Ready, Init, Init, Ready], NOBODY)
  const Three := Four([0], [1], [3], [P1, P2, P3, P3], [Ready, Ready, Init, Ready], NOBODY)
  const All := Four([0], [1, 2], [3], [P1, P2, P2, P3], [Ready, Ready, Ready, Ready], NOBODY)
  const First := All.(current := 0)
  const Changed := Four([], [1, 2, 0], [3], [P2, P2, P2, P3], [Ready, Ready, Ready, Ready], 0)
  const Second := Changed.(current := 1)
  const Third := Four([], [2, 0, 1], [3], [P2, P2, P2, P3], [Ready, Ready, Ready, Ready], 2)

  lemma FourLevels(p: Level)
    ensures Below(p, Level(4)) <==> p == Level(0) || p == P1 || p == P2 || p == P3
    ensures Below(p, Level(4)) ==> Narrow(p)
    ensures Below(p, P2) ==> p == Level(0) || p == P1
    ensures Below(p, P1) ==> p == Level(0)
  {}

  /** What Listed asks for, list by list. */
  lemma FourListed(s: Sched, l1: seq<int>, l2: seq<int>, l3: seq<int>)
    requires s == Four(l1, l2, l3, s.prio, s.stat, s.current) && |s.prio| == |s.stat| == 4
    requires forall t :: 0 <= t < 4 ==> s.prio[t] == P1 || s.prio[t] == P2 || s.prio[t] == P3
    requires Distinct(l1) && Distinct(l2) && Distinct(l3)
    requires forall t :: t in l1 <==> 0 <= t < 4 && s.stat[t] == Ready && s.prio[t] == P1
    requires forall t :: t in l2 <==> 0 <= t < 4 && s.stat[t] == Ready && s.prio[t] == P2
    requires forall t :: t in l3 <==> 0 <= t < 4 && s.stat[t] == Ready && s.prio[t] == P3
    ensures Listed(s)
  {
    hide Below, Narrow;
    forall p: Level
      ensures p in s.lists <==> Below(p, s.max)
      ensures p in s.lists ==> Narrow(p)
    {
      FourLevels(p);
    }
  }

  lemma AllListed()
    ensures Listed(Booted) && Listed(One) && Listed(Three) && Listed(All) && Listed(First)
  {
    hide Listed;
    FourListed(Booted, [], [], [3]);
    FourListed(One, [0], [], [3]);
    FourListed(Three, [0], [1], [3]);
    FourListed(All, [0], [1, 2], [3]);
    FourListed(First, [0], [1, 2], [3]);
  }

  lemma LaterListed()
    ensures Listed(Changed) && Listed(Second) && Listed(Third) && Listed(Third.(current := 1))
  {
    hide Listed;
    FourListed(Changed, [], [1, 2, 0], [3]);
    FourListed(Second, [], [1, 2, 0], [3]);
    FourListed(Third, [], [2, 0, 1], [3]);
    FourListed(Third.(current := 1), [], [2, 0, 1], [3]);
  }

  lemma RescheduledTo(s: Sched, p: Level)
    requires Listed(s) && Top(s, p) && s.nest == 0
    ensures SomeReady(s) && Rescheduled(s) == s.(current := s.lists[p][0])
  {
    hide Below;
    assert s.lists[p][0] in s.lists[p];
    assert Thread(s, s.lists[p][0]);
    TopUnique(s, p, Best(s));
  }

  lemma TopOne(s: Sched, l1: seq<int>, l2: seq<int>, l3: seq<int>)
    requires s == Four(l1, l2, l3, s.prio, s.stat, s.current)
    ensures l1 != [] ==> Top(s, P1)
    ensures l1 == [] && l2 != [] ==> Top(s, P2)
  {
    hide Below;
    forall q: Level
      ensures Below(q, P1) ==> q == Level(0)
      ensures Below(q, P2) ==> q == Level(0) || q == P1
    {
      FourLevels(q);
    }
  }

  // ---- up to the point where thread 0 runs ----

  lemma StartOne()
    ensures Listed(Booted) && Enabled(Booted, Startup(0, P1), 3) && Step(Booted, Startup(0, P1), 3) == One
  {
    hide Listed;
    AllListed();
    assert [] + [0] == [0];
    assert Booted.lists[P1 := [0]] == One.lists && Booted.prio[0 := P1] == One.prio && Booted.stat[0 := Ready] == One.stat;
  }

  lemma StartTwo()
    ensures Listed(One) && Enabled(One, Startup(1, P2), 3) && Step(One, Startup(1, P2), 3) == Three
  {
    hide Listed;
    AllListed();
    assert [] + [1] == [1];
    assert One.lists[P2 := [1]] == Three.lists && One.prio[1 := P2] == Three.prio && One.stat[1 := Ready] == Three.stat;
  }

  lemma StartRest()
    ensures Listed(Three) && Enabled(Three, Startup(2, P2), 3) && Step(Three, Startup(2, P2), 3) == All
    ensures Listed(All) && Enabled(All, Schedule, 3) && Step(All, Schedule, 3) == First
  {
    hide Listed;
    AllListed();
    assert [1] + [2] == [1, 2];
    assert Three.lists[P2 := [1, 2]] == All.lists && Three.prio[2 := P2] == All.prio && Three.stat[2 := Ready] == All.stat;
    TopOne(All, [0], [1, 2], [3]);
    RescheduledTo(All, P1);
  }

  // ---- the running thread moves in with its new peers ----

  lemma Change()
    ensures Listed(First) && Enabled(First, ChangePriority(0, P2), 3) && Step(First, ChangePriority(0, P2), 3) == Changed
  {
    hide Listed;
    AllListed();
    assert First.stat[0 := Suspend][0 := Ready] == First.stat;
    assert Unlisted([0], 0) == [];
    assert [1, 2] + [0] == [1, 2, 0];
    assert First.lists[P1 := []][P2 := [1, 2, 0]] == Changed.lists;
    assert First.prio[0 := P2] == Changed.prio;
  }

  lemma FirstYield()
    ensures Listed(Changed) && Enabled(Changed, Yield, 3) && Step(Changed, Yield, 3) == Second
  {
    hide Listed;
    LaterListed();
    var s := Changed;
    assert s.stat[0 := Suspend][0 := Ready] == s.stat;
    IndexUnique([1, 2, 0], 2);
    assert Unlisted([1, 2, 0], 0) == [1, 2];
    assert [1, 2] + [0] == [1, 2, 0];
    assert s.lists[P2 := [1, 2]][P2 := [1, 2, 0]] == s.lists;
    assert s.prio[0 := P2] == s.prio;
    assert Moved(s, 0, P2) == s;
    TopOne(s, [], [1, 2, 0], [3]);
    RescheduledTo(s, P2);
  }

  lemma SecondYield()
    ensures Listed(Second) && Enabled(Second, Yield, 3) && Step(Second, Yield, 3) == Third
  {
    hide Listed;
    LaterListed();
    var s := Second;
    assert s.stat[1 := Suspend][1 := Ready] == s.stat;
    assert Unlisted([1, 2, 0], 1) == [2, 0];
    assert [2, 0] + [1] == [2, 0, 1];
    assert s.lists[P2 := [2, 0]][P2 := [2, 0, 1]] == Third.lists;
    assert s.prio[1 := P2] == s.prio;
    assert Moved(s, 1, P2) == Third.(current := 1);
    TopOne(Third.(current := 1), [], [2, 0, 1], [3]);
    RescheduledTo(Third.(current := 1), P2);
  }

  lemma PossibleCons(s: Sched, a: Action, n: Sched, rest: seq<Action>)
    requires Listed(s) && Enabled(s, a, 3) && Step(s, a, 3) == n && Listed(n) && Possible(n, rest, 3)
    ensures Possible(s, [a] + rest, 3) && Run(s, [a] + rest, 3) == Run(n, rest, 3)
  {
    hide Listed, Step;
    assert ([a] + rest)[1..] == rest;
  }

  lemma NoActions(s: Sched)
    requires Listed(s)
    ensures Possible(s, [], 3) && Run(s, [], 3) == s
  {}

  /** Thread 0 runs after a start from the booted state. */
  lemma FirstReached()
    ensures Listed(Booted) && Possible(Booted, [Startup(0, P1)] + ([Startup(1, P2)] + ([Startup(2, P2)] + ([Schedule] + []))), 3)
    ensures Run(Booted, [Startup(0, P1)] + ([Startup(1, P2)] + ([Startup(2, P2)] + ([Schedule] + []))), 3) == First
  {
    hide Listed, Enabled, Step, Possible, Run;
    AllListed();
    StartOne();
    StartTwo();
    StartRest();
    NoActions(First);
    PossibleCons(All, Schedule, First, []);
    PossibleCons(Three, Startup(2, P2), All, [Schedule] + []);
    PossibleCons(One, Startup(1, P2), Three, [Startup(2, P2)] + ([Schedule] + []));
    PossibleCons(Booted, Startup(0, P1), One, [Startup(1, P2)] + ([Startup(2, P2)] + ([Schedule] + [])));
  }

  lemma WaitsCons(s: Sched, a: Action, n: Sched, rest: seq<Action>)
    requires Waiting(s, 2) && Enabled(s, a, 3) && LeavesAlone(s, a, 2) && Step(s, a, 3) == n && Waiting(n, 2) && WaitsThrough(n, rest, 3, 2)
    ensures WaitsThrough(s, [a] + rest, 3, 2)
    ensures YieldsSeen(s, [a] + rest, 3, 2) ==
            (if a == Yield && s.nest == 0 && PeerMoves(s, Yield, 2) then 1 else 0) + YieldsSeen(n, rest, 3, 2)
  {
    hide Listed, Step, PeerMoves;
    assert ([a] + rest)[1..] == rest;
    StepAhead(s, a, 3, 2);
  }

  /** One peer is in front of thread 2, and yet two yields of peers come before it runs: the first one is by thread 0,
      which its change of priority has put behind thread 2. */
  lemma ChangeCostsATurn()
    ensures Waiting(First, 2) && CurrentFirst(First) && Ahead(First, 2) == 1
    ensures WaitsThrough(First, [ChangePriority(0, P2)] + ([Yield] + ([Yield] + [])), 3, 2)
    ensures YieldsSeen(First, [ChangePriority(0, P2)] + ([Yield] + ([Yield] + [])), 3, 2) == 2
  {
    hide Listed, Enabled, Step, WaitsThrough, YieldsSeen;
    AllListed();
    LaterListed();
    Change();
    FirstYield();
    SecondYield();
    NoWaits(Third);
    WaitsCons(Second, Yield, Third, []);
    WaitsCons(Changed, Yield, Second, [Yield] + []);
    WaitsCons(First, ChangePriority(0, P2), Changed, [Yield] + ([Yield] + []));
    assert [1, 2][1..] == [2];
  }

  lemma NoWaits(s: Sched)
    requires Waiting(s, 2)
    ensures WaitsThrough(s, [], 3, 2) && YieldsSeen(s, [], 3, 2) == 0
  {}
}
