/** The statements of scheduler.c and thread.c on the ready lists, the bitmaps and the fields of the threads. */
module SchedulerCode {
  import opened Rings
  import opened Bitmaps
  import opened WordBits
  import opened ReadyBits
  import M = SchedulerModel

  class Scheduler {
    const max: Level                  // RT_THREAD_PRIORITY_MAX
    const two: bool                   // more than 32 priorities: two levels
    const idle: int
    var lists: Lists                  // rt_thread_priority_table
    var group: Word                   // rt_thread_ready_priority_group
    var table: Table                  // rt_thread_ready_table
    var current: int                  // rt_current_thread
    var nest: int                     // rt_scheduler_lock_nest
    var prio: seq<Level>              // current_priority
    var stat: seq<M.Stat>
    var number: seq<Level>
    var numberMask: seq<Word>
    var highMask: seq<Word>

    /** What the fields stand for. */
    ghost function View(): M.Sched
      reads this
    {
      M.Sched(max, lists, prio, stat, current, nest)
    }

    ghost predicate Ranges()
      reads this
    {
      && |prio| == |stat| == |number| == |numberMask| == |highMask|
      && forall p :: p in lists ==> if two then In256(p) else In32(p)
    }

    /** The masks that are kept with a started thread belong to its current priority. */
    ghost predicate MaskOf(t: int)
      reads this
      requires Ranges() && 0 <= t < |prio| && prio[t] in lists
    {
      if two then
        RowCol(prio[t]);
        number[t] == Row(prio[t]) && numberMask[t] == Mask(Row(prio[t]).w) && highMask[t] == Mask(Col(prio[t]).w)
      else
        numberMask[t] == Mask(prio[t].w)
    }

    ghost predicate Masks()
      reads this
    {
      Ranges() && forall t :: 0 <= t < |prio| && prio[t] in lists && stat[t] != M.Init ==> MaskOf(t)
    }

    /** Both layouts of the bitmap encode the non-empty lists. */
    ghost predicate Bits()
      reads this
    {
      if two then TwoLevel(group, table, lists) else OneLevel(group, lists)
    }

    ghost predicate Valid()
      reads this
    {
      M.Listed(View()) && Masks() && Bits()
    }

    /** After rt_system_scheduler_init: none are the emptied lists and rows the zeroed table; all threads
        have been initialised but not started. */
    constructor (max: Level, two: bool, idle: int, init: seq<Level>, none: Lists, rows: Table)
      requires if two then !Below(Level(256), max) else !Below(Level(32), max)
      requires forall t :: 0 <= t < |init| ==> Below(init[t], max)
      requires forall p :: p in none <==> Below(p, max)
      requires forall p :: p in none ==> none[p] == []
      requires forall n: Level :: In32(n) ==> n in rows && rows[n] == 0
      ensures Valid() && lists == none && group == 0 && current == M.NOBODY && nest == 0
      ensures prio == init && forall t :: 0 <= t < |init| ==> stat[t] == M.Init
      ensures this.max == max && this.two == two && this.idle == idle
    {
      this.max, this.two, this.idle := max, two, idle;
      lists, group, table := none, 0, rows;
      current, nest := M.NOBODY, 0;
      prio := init;
      stat := seq(|init|, t => M.Init);
      number := seq(|init|, t => Level(0));
      numberMask := seq(|init|, t => 0);
      highMask := seq(|init|, t => 0);
      new;
      hide Below, Narrow, In256, In32, OneLevel, TwoLevel;
      InitBits(none, rows);
      InitRanges(none, max, two);
    }

    /** rt_schedule_insert_thread. */
    method InsertThread(t: int)
      requires Valid() && M.Thread(View(), t) && stat[t] == M.Suspend
      modifies this
      ensures Valid() && View() == M.Inserted(old(View()), t)
    {
      hide Has, Or, Row, Col, In256, In32, M.Listed, OneLevel, TwoLevel;
      M.InsertedListed(View(), t);
      var p := prio[t];
      TheirLists(View(), t);
      assert MaskOf(t);
      stat := stat[t := M.Ready];
      if two {
        TwoInsert(group, table, lists, p, lists[p] + [t]);
        table := table[number[t] := Or(table[number[t]], highMask[t])];
      } else {
        OneInsert(group, lists, p, lists[p] + [t]);
      }
      lists := lists[p := lists[p] + [t]];
      group := Or(group, numberMask[t]);
    }

    /** rt_schedule_remove_thread. */
    method RemoveThread(t: int)
      requires Ranges() && Bits() && 0 <= t < |prio| && prio[t] in lists && MaskOf(t)
      requires t in lists[prio[t]]
      modifies `lists, `group, `table
      ensures Bits() && lists == old(lists)[prio[t] := Unlisted(old(lists)[prio[t]], t)]
    {
      hide Has, Off, Row, Col, In256, In32, OneLevel, TwoLevel, Unlisted;
      var p := prio[t];
      var rest := Unlisted(lists[p], t);
      if two {
        if rest == [] { TwoRemove(group, table, lists, p); } else { TwoSame(group, table, lists, p, rest); }
      } else {
        if rest == [] { OneRemove(group, lists, p); } else { OneSame(group, lists, p, rest); }
      }
      lists := lists[p := rest];
      if rest == [] {
        if two {
          table := table[number[t] := Off(table[number[t]], highMask[t])];
          if table[number[t]] == 0 { group := Off(group, numberMask[t]); }
        } else {
          group := Off(group, numberMask[t]);
        }
      }
    }

    /** The priority of a thread that is in no ready list, with its masks. */
    method SetPriority(t: int, p: Level)
      requires Ranges() && 0 <= t < |prio| && p in lists
      modifies `prio, `number, `numberMask, `highMask
      ensures Ranges() && prio == old(prio)[t := p] && MaskOf(t)
      ensures forall u :: 0 <= u < |prio| && u != t ==>
                number[u] == old(number)[u] && numberMask[u] == old(numberMask)[u] && highMask[u] == old(highMask)[u]
    {
      hide Mask, Row, Col;
      prio := prio[t := p];
      if two {
        RowCol(p);
        number := number[t := Row(p)];
        numberMask := numberMask[t := Mask(Row(p).w)];
        highMask := highMask[t := Mask(Col(p).w)];
      } else {
        numberMask := numberMask[t := Mask(p.w)];
      }
    }

    /** The search of rt_schedule in the bitmap. */
    method Highest() returns (top: Level)
      requires Valid() && M.SomeReady(View())
      ensures top == M.Best(View())
    {
      hide First, Joined, In256, In32, Below, M.Listed, M.Best, OneLevel, TwoLevel;
      ghost var s := View();
      BestMarked(s);
      BestInRange();
      if two {
        TwoFind(group, table, lists, M.Best(s));
        var n := First(group);
        top := Joined(n, First(table[n]));
      } else {
        OneFind(group, lists, M.Best(s));
        top := First(group);
      }
      TopIsBest(s, top);
    }

    /** rt_schedule. */
    method Schedule()
      requires Valid() && M.SomeReady(View())
      modifies `current
      ensures Valid() && View() == M.Rescheduled(old(View()))
    {
      hide M.Listed, M.Best, OneLevel, TwoLevel;
      M.RescheduledKeeps(View());
      BestMarked(View());
      if nest == 0 {
        var top := Highest();
        var to := lists[top][0];
        if to != current { current := to; }
      }
    }

    lemma BestInRange()
      requires Valid() && M.SomeReady(View())
      ensures if two then In256(M.Best(View())) else In32(M.Best(View()))
    {
      hide Below, In256, In32;
      BestMarked(View());
    }

    /** rt_thread_startup: the first priority of the thread, and its first place in a ready list. */
    method Startup(t: int, p: Level)
      requires Valid() && M.Enabled(View(), M.Startup(t, p), idle)
      modifies this
      ensures Valid() && View() == M.Step(old(View()), M.Startup(t, p), idle)
    {
      hide M.Listed, M.Rescheduled, OneLevel, TwoLevel, In256, In32, Row, Col, Mask;
      M.KeepsReady(View(), t, p, idle);
      M.StartupListed(View(), t, p);
      Launch(t, p);
      if current != M.NOBODY { Schedule(); }
    }

    /** The same without the call of rt_schedule. */
    method Launch(t: int, p: Level)
      requires Valid() && M.Enabled(View(), M.Launch(t, p), idle)
      modifies this
      ensures Valid() && View() == M.Step(old(View()), M.Launch(t, p), idle)
    {
      hide M.Listed, M.Rescheduled, OneLevel, TwoLevel, In256, In32, Row, Col, Mask;
      M.StartupListed(View(), t, p);
      M.PrioListed(View(), t, p);
      StartupInserted(View(), t, p);
      SuspendedListed(View().(prio := prio[t := p]), t);
      SetPriority(t, p);
      MasksAfter(t);
      stat := stat[t := M.Suspend];
      InsertThread(t);
    }

    /** rt_thread_suspend; the caller calls rt_schedule afterwards. */
    method Stop(t: int)
      requires Valid() && M.Enabled(View(), M.Stop(t), idle)
      modifies this
      ensures Valid() && View() == M.Step(old(View()), M.Stop(t), idle)
    {
      hide M.Listed, OneLevel, TwoLevel, In256, In32, Row, Col, Mask, Unlisted;
      TheirLists(View(), t);
      if stat[t] != M.Ready { return; }
      M.RemovedListed(View(), t, M.Suspend);
      M.ReadyListed(View(), t);
      stat := stat[t := M.Suspend];
      RemoveThread(t);
    }

    /** rt_thread_resume. */
    method Resume(t: int)
      requires Valid() && M.Enabled(View(), M.Resume(t), idle)
      modifies this
      ensures Valid() && View() == M.Step(old(View()), M.Resume(t), idle)
    {
      hide M.Listed, OneLevel, TwoLevel;
      TheirLists(View(), t);
      if stat[t] != M.Suspend { return; }
      InsertThread(t);
    }

    /** rt_thread_timeout. */
    method Timeout(t: int)
      requires Valid() && M.Enabled(View(), M.Timeout(t), idle)
      modifies this
      ensures Valid() && View() == M.Step(old(View()), M.Timeout(t), idle)
    {
      hide M.Listed, OneLevel, TwoLevel, M.Rescheduled;
      TheirLists(View(), t);
      M.InsertedListed(View(), t);
      assert M.Thread(M.Inserted(View(), t), idle);
      InsertThread(t);
      Schedule();
    }

    /** rt_thread_control with RT_THREAD_CTRL_CHANGE_PRIORITY: a ready thread changes its list. */
    method ChangePriority(t: int, p: Level)
      requires Valid() && M.Enabled(View(), M.ChangePriority(t, p), idle)
      modifies this
      ensures Valid() && View() == M.Step(old(View()), M.ChangePriority(t, p), idle)
    {
      hide M.Listed, OneLevel, TwoLevel, In256, In32, Row, Col, Mask, Unlisted;
      TheirLists(View(), t);
      if stat[t] == M.Ready {
        Move(t, p);
      } else {
        M.PrioListed(View(), t, p);
        SetPriority(t, p);
        MasksAfter(t);
      }
    }

    /** Out of one ready list and to the end of another one. */
    method Move(t: int, p: Level)
      requires Valid() && M.Waiting(View(), t) && p in lists
      modifies this
      ensures Valid() && View() == M.Moved(old(View()), t, p)
    {
      hide M.Listed, OneLevel, TwoLevel, In256, In32, Row, Col, Mask, Unlisted;
      M.ReadyListed(View(), t);
      M.RemovedListed(View(), t, M.Suspend);
      M.PrioListed(M.Removed(View(), t, M.Suspend), t, p);
      stat := stat[t := M.Suspend];
      RemoveThread(t);
      label L:
      SetPriority(t, p);
      MasksAfter@L(t);
      InsertThread(t);
    }

    /** rt_thread_yield: only when there are peers. */
    method Yield()
      requires Valid() && M.Enabled(View(), M.Yield, idle)
      modifies this
      ensures Valid() && View() == M.Step(old(View()), M.Yield, idle)
    {
      hide M.Listed, OneLevel, TwoLevel, M.Rescheduled, M.Moved, Unlisted, In256, In32, Row, Col, Mask;
      TheirLists(View(), current);
      if stat[current] == M.Ready && |lists[prio[current]]| > 1 {
        MovedFields(View(), current, prio[current], idle);
        Rotate();
        Schedule();
      }
    }

    /** Its section: out of the list and to its end, without touching the bitmap. */
    method Rotate()
      requires Valid() && M.Enabled(View(), M.Rotate, idle)
      modifies this
      ensures Valid() && View() == M.Step(old(View()), M.Rotate, idle)
    {
      hide M.Listed, OneLevel, TwoLevel, M.Rescheduled, M.Moved, Unlisted, In256, In32, Row, Col, Mask;
      TheirLists(View(), current);
      var p := prio[current];
      if stat[current] == M.Ready && |lists[p]| > 1 {
        MovedFields(View(), current, p, idle);
        MovedInPlace(View(), current);
        var l := Unlisted(lists[p], current) + [current];
        if two { TwoSame(group, table, lists, p, l); } else { OneSame(group, lists, p, l); }
        lists := lists[p := l];
      }
    }

    /** rt_enter_critical. */
    method Enter()
      requires Valid() && M.Enabled(View(), M.Enter, idle)
      modifies `nest
      ensures Valid() && View() == M.Step(old(View()), M.Enter, idle)
    {
      hide OneLevel, TwoLevel, In256, In32, Row, Col, Mask;
      M.OtherFields(View(), current, nest + 1);
      nest := nest + 1;
    }

    /** rt_exit_critical. */
    method Exit()
      requires Valid() && M.Enabled(View(), M.Exit, idle)
      modifies this
      ensures Valid() && View() == M.Step(old(View()), M.Exit, idle)
    {
      hide OneLevel, TwoLevel, In256, In32, Row, Col, Mask, M.Rescheduled, M.Listed;
      M.OtherFields(View(), current, nest - 1);
      M.OtherFields(View(), current, 0);
      nest := nest - 1;
      if nest <= 0 {
        nest := 0;
        assert M.Thread(View(), idle);
        Schedule();
      }
    }

    /** Any possible run of operations behaves as the specification. */
    method RunAll(acts: seq<M.Action>)
      requires Valid() && M.Possible(View(), acts, idle)
      modifies this
      ensures Valid() && View() == M.Run(old(View()), acts, idle)
      decreases |acts|
    {
      hide M.Listed, M.Step, M.Rescheduled;
      if acts != [] {
        match acts[0] {
          case Startup(t, p) => Startup(t, p);
          case Launch(t, p) => Launch(t, p);
          case Stop(t) => Stop(t);
          case Resume(t) => Resume(t);
          case Timeout(t) => Timeout(t);
          case Yield => Yield();
          case Rotate => Rotate();
          case ChangePriority(t, p) => ChangePriority(t, p);
          case Schedule =>
            ScheduleStep(View(), idle);
            Schedule();
          case Enter => Enter();
          case Exit => Exit();
        }
        RunAll(acts[1..]);
      }
    }

    /** Changing one thread's masks leaves those of the others as they are. */
    twostate lemma MasksAfter(t: int)
      requires old(Masks()) && Ranges() && 0 <= t < |prio| && prio[t] in lists && MaskOf(t)
      requires lists == old(lists) && stat == old(stat) && |prio| == |old(prio)|
      requires forall u :: 0 <= u < |prio| && u != t ==>
                 prio[u] == old(prio)[u] && number[u] == old(number)[u] && numberMask[u] == old(numberMask)[u] && highMask[u] == old(highMask)[u]
      ensures Masks()
    {
      forall u | 0 <= u < |prio| && prio[u] in lists && stat[u] != M.Init
        ensures MaskOf(u)
      {
        if u != t { assert old(MaskOf(u)); }
      }
    }
  }

  lemma TheirLists(s: M.Sched, t: int)
    requires M.Listed(s) && M.Thread(s, t)
    ensures |s.prio| == |s.stat| && s.prio[t] in s.lists
  {}

  lemma BestMarked(s: M.Sched)
    requires M.Listed(s) && M.SomeReady(s)
    ensures Marked(s.lists, M.Best(s))
  {}

  /** A marked priority that the most urgent one is not below of is that one. */
  lemma TopIsBest(s: M.Sched, q: Level)
    requires M.Listed(s) && M.SomeReady(s) && Marked(s.lists, q) && !Below(M.Best(s), q)
    ensures M.Best(s) == q
  {
    hide Below;
    BelowIsOrder(M.Best(s), q);
  }

  lemma SuspendedListed(s: M.Sched, t: int)
    requires M.Listed(s) && M.Thread(s, t) && s.stat[t] == M.Init
    ensures M.Listed(s.(stat := s.stat[t := M.Suspend]))
  {
    hide Below;
    var n := s.(stat := s.stat[t := M.Suspend]);
    forall q, x | q in n.lists
      ensures x in n.lists[q] <==> M.Thread(n, x) && n.stat[x] == M.Ready && n.prio[x] == q
    {
      assert x in s.lists[q] <==> M.Thread(s, x) && s.stat[x] == M.Ready && s.prio[x] == q;
    }
  }

  lemma StartupInserted(s: M.Sched, t: int, p: Level)
    requires M.Listed(s) && M.Thread(s, t) && p in s.lists
    ensures |s.prio| == |s.stat|
    ensures M.Inserted(s.(prio := s.prio[t := p], stat := s.stat[t := M.Suspend]), t) == M.Inserted(s.(prio := s.prio[t := p]), t)
  {
    assert s.stat[t := M.Suspend][t := M.Ready] == s.stat[t := M.Ready];
  }

  lemma MovedFields(s: M.Sched, t: int, p: Level, idle: int)
    requires M.Waiting(s, t) && p in s.lists && M.Thread(s, idle) && s.stat[idle] == M.Ready
    ensures M.SomeReady(M.Moved(s, t, p)) && M.Listed(M.Moved(s, t, p))
  {
    M.MovedListed(s, t, p);
    assert M.Thread(M.Moved(s, t, p), idle);
  }

  lemma MovedInPlace(s: M.Sched, t: int)
    requires M.Waiting(s, t)
    ensures s.prio[t] in s.lists && s.lists[s.prio[t]] != []
    ensures M.Moved(s, t, s.prio[t]) == s.(lists := s.lists[s.prio[t] := Unlisted(s.lists[s.prio[t]], t) + [t]])
  {
    hide Unlisted;
    M.ReadyListed(s, t);
    var p := s.prio[t];
    var l := Unlisted(s.lists[p], t);
    assert s.stat[t := M.Suspend][t := M.Ready] == s.stat;
    assert s.prio[t := p] == s.prio;
    assert s.lists[p := l][p := l + [t]] == s.lists[p := l + [t]];
  }

  lemma ScheduleStep(s: M.Sched, idle: int)
    requires M.Listed(s) && M.Enabled(s, M.Schedule, idle)
    ensures M.SomeReady(s) && M.Step(s, M.Schedule, idle) == M.Rescheduled(s)
  {}

  lemma InitBits(lists: Lists, table: Table)
    requires forall p :: p in lists ==> lists[p] == []
    requires forall n: Level :: In32(n) ==> n in table && table[n] == 0
    ensures OneLevel(0, lists) && TwoLevel(0, table, lists)
  {
    hide Has;
    forall n: Level | In32(n)
      ensures !Has(0, n.w)
    {
      EmptyWord(n.w);
    }
    assert Byte(0);
  }

  lemma InitRanges(lists: Lists, max: Level, two: bool)
    requires forall p :: p in lists <==> Below(p, max)
    requires if two then !Below(Level(256), max) else !Below(Level(32), max)
    ensures forall p :: p in lists ==> if two then In256(p) else In32(p)
    ensures forall p :: p in lists ==> Narrow(p)
  {}
}
